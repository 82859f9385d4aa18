/**
 * Row-building and reply rules of the backend (backend/server.js): the UPDATE
 * statement for a role, the titles given to chat sessions, and the Slack
 * slash-command endpoint.
 *
 * Database rows are given as sequences; the database itself, the HMAC and
 * `Number(...)` are parameters.
 */
module ServerRules {
  import opened Wrappers
  import opened Strings

  // ----- PUT /api/roles/:id -----

  /** One `column=$n` assignment of the SET clause, with the value bound to it. */
  datatype Assignment = Assignment(column: string, value: string)

  /** A parameterised statement: its text and the values bound to `$1`, `$2`, ... */
  datatype Query = Query(sql: string, values: seq<string>)

  /** An HTTP error reply. */
  datatype HttpError = HttpError(status: nat, message: string)

  /** `parts.join(sep)` for a separator of any length. */
  function JoinWith(parts: seq<string>, sep: string): string {
    if |parts| == 0 then []
    else if |parts| == 1 then parts[0]
    else parts[0] + sep + JoinWith(parts[1..], sep)
  }

  /** The columns a request sets, in the order `name`, `instructions`; only truthy fields
      count, and their values are trimmed. */
  function Assignments(name: Option<string>, instructions: Option<string>): seq<Assignment> {
    (if Truthy(name) then [Assignment("name", Trim(name.value))] else [])
    + (if Truthy(instructions) then [Assignment("instructions", Trim(instructions.value))] else [])
  }

  /** `column=$n`, numbering from `first`. */
  function SetItems(assignments: seq<Assignment>, first: nat): (r: seq<string>)
    ensures |r| == |assignments|
    ensures forall i :: 0 <= i < |r| ==> r[i] == assignments[i].column + "=$" + NatToString(first + i)
  {
    if |assignments| == 0 then []
    else [assignments[0].column + "=$" + NatToString(first)] + SetItems(assignments[1..], first + 1)
  }

  function Values(assignments: seq<Assignment>): (r: seq<string>)
    ensures |r| == |assignments| && forall i :: 0 <= i < |r| ==> r[i] == assignments[i].value
  {
    if |assignments| == 0 then [] else [assignments[0].value] + Values(assignments[1..])
  }

  /** The WHERE and RETURNING part, the id bound to placeholder `n`. */
  function WhereClause(n: nat): string {
    "WHERE id=$" + NatToString(n) + " RETURNING id, name, instructions, created_at, updated_at"
  }

  const NothingToUpdate: HttpError := HttpError(400, "Nothing to update")

  /** The statement of the role PUT handler, or its 400 reply. */
  function RoleUpdate(id: string, name: Option<string>, instructions: Option<string>): Result<Query, HttpError> {
    var assignments := Assignments(name, instructions);
    if |assignments| == 0 then Failure(NothingToUpdate)
    else
      var k := |assignments|;
      Success(Query(
        "UPDATE roles SET " + JoinWith(SetItems(assignments, 1), ", ") + ", updated_at=now() " + WhereClause(k + 1),
        Values(assignments) + [id]))
  }

  /** A request with neither a name nor instructions is refused with 400 `Nothing to update`. */
  lemma RoleUpdateRefuses(id: string, name: Option<string>, instructions: Option<string>)
    ensures RoleUpdate(id, name, instructions).Failure? <==> !Truthy(name) && !Truthy(instructions)
    ensures RoleUpdate(id, name, instructions).Failure? ==> RoleUpdate(id, name, instructions).error == NothingToUpdate
  {
  }

  /** The SET clause names `name` first and `instructions` last, each exactly when the
      request gives it, with its trimmed value. */
  lemma AssignmentsOrder(name: Option<string>, instructions: Option<string>)
    ensures |Assignments(name, instructions)| == (if Truthy(name) then 1 else 0) + (if Truthy(instructions) then 1 else 0)
    ensures Truthy(name) ==> Assignments(name, instructions)[0] == Assignment("name", Trim(name.value))
    ensures Truthy(instructions) ==>
              Assignments(name, instructions)[|Assignments(name, instructions)| - 1]
              == Assignment("instructions", Trim(instructions.value))
  {
  }

  /** `$i` of the SET clause (see `SetItems`) is bound to the i-th column's value, and the
      value after them, the last, is the id. */
  lemma RoleUpdateValues(id: string, name: Option<string>, instructions: Option<string>)
    requires RoleUpdate(id, name, instructions).Success?
    ensures var q := RoleUpdate(id, name, instructions).value;
            var a := Assignments(name, instructions);
            |q.values| == |a| + 1 && q.values[|a|] == id
            && forall i :: 0 <= i < |a| ==> q.values[i] == a[i].value
  {
  }

  /** The WHERE clause uses the placeholder after the SET clause's: `$k+1` for k columns. */
  lemma RoleUpdateWhere(id: string, name: Option<string>, instructions: Option<string>)
    requires RoleUpdate(id, name, instructions).Success?
    ensures EndsWith(RoleUpdate(id, name, instructions).value.sql, WhereClause(|Assignments(name, instructions)| + 1))
  {
    var a := Assignments(name, instructions);
    AppendEndsWith("UPDATE roles SET " + JoinWith(SetItems(a, 1), ", ") + ", updated_at=now() ", WhereClause(|a| + 1));
  }

  lemma AppendEndsWith(head: string, tail: string)
    ensures EndsWith(head + tail, tail)
  {
    assert (head + tail)[|head + tail| - |tail|..] == tail;
  }

  /** Different placeholder numbers are written differently. */
  lemma PlaceholdersDistinct(m: nat, n: nat)
    requires m != n
    ensures NatToString(m) != NatToString(n)
  {
  }

  // ----- session titles -----

  const DefaultTitle: string := "New Chat"

  /** `s.slice(0, n)`. */
  function Prefix(s: string, n: nat): (r: string)
    ensures |r| <= n && |r| <= |s| && r == s[..|r|]
    ensures |s| <= n ==> r == s
  {
    if |s| <= n then s else s[..n]
  }

  /** The title a session is created with: the given title cut to 120 characters, or
      `New Chat` when none is given. */
  function CreateTitle(title: Option<string>): string {
    if Truthy(title) then Prefix(title.value, 120) else DefaultTitle
  }

  /** The title set by the first message of a session, `None` when the count of stored
      messages (a string from the database) is not `'1'`. */
  function FirstMessageTitle(count: string, message: string): Option<string> {
    if count != "1" then None
    else
      var t := Prefix(Trim(message), 60);
      Some(if t == [] then DefaultTitle else t)
  }

  /** A created session's title is never empty and at most 120 characters, and it is the
      start of the given title when there is one. */
  lemma CreateTitleSpec(title: Option<string>)
    ensures CreateTitle(title) != [] && |CreateTitle(title)| <= 120
    ensures Truthy(title) ==> StartsWith(title.value, CreateTitle(title))
    ensures !Truthy(title) ==> CreateTitle(title) == DefaultTitle
  {
  }

  /** Only the first message retitles a session. The new title is `New Chat` for a blank
      message; otherwise it is the start of the trimmed message, at most 60 characters, the
      whole trimmed message when that is short enough, and it never starts with a space. */
  lemma FirstMessageTitleSpec(count: string, message: string)
    ensures FirstMessageTitle(count, message).Some? <==> count == "1"
    ensures count == "1" && IsBlank(message) ==> FirstMessageTitle(count, message) == Some(DefaultTitle)
    ensures count == "1" && !IsBlank(message) ==>
              var t := FirstMessageTitle(count, message).value;
              t != [] && |t| <= 60 && StartsWith(Trim(message), t) && !IsJsSpace(t[0])
              && (|Trim(message)| <= 60 ==> t == Trim(message))
  {
    TrimEmptyIffBlank(message);
    TrimSpec(message);
  }

  // ----- POST /slack/command -----

  /** The request fields the handler reads; `timestamp` and `signature` are the
      `x-slack-request-timestamp` and `x-slack-signature` headers. */
  datatype SlackRequest = SlackRequest(
    timestamp: Option<string>,
    signature: Option<string>,
    command: Option<string>,
    text: Option<string>)

  /** The roles table as the two commands query it: every name in ascending order, and the
      names equal to a given one ignoring case. */
  datatype Roles = Roles(names: seq<string>, named: string -> seq<string>)

  /** A reply: the status, and the message text. */
  datatype SlackReply = SlackReply(status: nat, text: string)

  /** The signature check, when a signing secret is configured. `number` is `Number(ts)`,
      `None` for NaN; `hmacHex` is the hex HMAC-SHA256 of the signed base string; `nowMs` is
      `Date.now()`. `None` lets the request through. */
  function SignatureCheck(secret: Option<string>, req: SlackRequest, number: Option<real>, nowMs: nat, hmacHex: string): Option<string> {
    if !Truthy(secret) then None
    else if !Truthy(req.timestamp) || !Truthy(req.signature) then Some("Missing signature")
    else if number.Some? && number.value < ((nowMs / 1000) - 60 * 5) as real then Some("Stale request")
    else if "v0=" + hmacHex != req.signature.value then Some("Invalid signature")
    else None
  }

  /** Without a secret every request passes. With one, a request passes exactly when both
      headers are present, it is not older than five minutes (an unparsable timestamp is
      never stale), and its signature is `v0=` and the HMAC; the 401 reasons are checked in
      that order. */
  lemma SignatureCheckIff(secret: Option<string>, req: SlackRequest, number: Option<real>, nowMs: nat, hmacHex: string)
    ensures !Truthy(secret) ==> SignatureCheck(secret, req, number, nowMs, hmacHex) == None
    ensures Truthy(secret) ==>
              (SignatureCheck(secret, req, number, nowMs, hmacHex) == None <==>
                 Truthy(req.timestamp) && Truthy(req.signature)
                 && (number.None? || number.value >= ((nowMs / 1000) - 300) as real)
                 && req.signature.value == "v0=" + hmacHex)
    ensures Truthy(secret) && (!Truthy(req.timestamp) || !Truthy(req.signature)) ==>
              SignatureCheck(secret, req, number, nowMs, hmacHex) == Some("Missing signature")
  {
  }

  function Bullets(names: seq<string>): (r: seq<string>)
    ensures |r| == |names| && forall i :: 0 <= i < |r| ==> r[i] == "• " + names[i]
  {
    if |names| == 0 then [] else ["• " + names[0]] + Bullets(names[1..])
  }

  const NoDatabase: string := "Database not configured"

  /** The reply to a command that passed the signature check; `db` is `None` when no
      database is configured. */
  function CommandReply(req: SlackRequest, db: Option<Roles>): string {
    if req.command == Some("/roles") then
      if db.None? then NoDatabase
      else if |db.value.names| == 0 then "No roles defined."
      else "Roles:\n" + Join(Bullets(db.value.names), '\n')
    else if req.command == Some("/role") then
      var roleName := Trim(OrElse(req.text, ""));
      if roleName == [] then "Usage: /role <name>"
      else if db.None? then NoDatabase
      else
        var rows := db.value.named(roleName);
        if |rows| == 0 then "Role not found: " + roleName
        else "Selected role (client must apply manually): " + rows[0]
    else "Unknown command"
  }

  /** The whole endpoint: 401 with the reason when the check fails, else the reply. */
  function SlackCommand(secret: Option<string>, req: SlackRequest, number: Option<real>, nowMs: nat, hmacHex: string,
                        db: Option<Roles>): SlackReply {
    match SignatureCheck(secret, req, number, nowMs, hmacHex)
    case Some(reason) => SlackReply(401, reason)
    case None => SlackReply(200, CommandReply(req, db))
  }

  /** `/roles` lists one bullet line per role, in the order given, under a `Roles:` line
      (when no name holds a line break), or says that there are none; `/role` with blank
      text replies with its usage before it looks at the database; anything else is an
      unknown command. */
  lemma CommandReplySpec(req: SlackRequest, db: Option<Roles>)
    ensures req.command == Some("/roles") && db.Some? && |db.value.names| == 0 ==>
              CommandReply(req, db) == "No roles defined."
    ensures req.command == Some("/roles") && db.Some? && |db.value.names| > 0
            && (forall i :: 0 <= i < |db.value.names| ==> '\n' !in db.value.names[i]) ==>
              Split(CommandReply(req, db), '\n') == ["Roles:"] + Bullets(db.value.names)
    ensures req.command == Some("/role") && IsBlank(OrElse(req.text, "")) ==>
              CommandReply(req, db) == "Usage: /role <name>"
    ensures req.command != Some("/roles") && req.command != Some("/role") ==>
              CommandReply(req, db) == "Unknown command"
  {
    TrimEmptyIffBlank(OrElse(req.text, ""));
    if req.command == Some("/roles") && db.Some? && |db.value.names| > 0
       && (forall i :: 0 <= i < |db.value.names| ==> '\n' !in db.value.names[i]) {
      var lines := ["Roles:"] + Bullets(db.value.names);
      assert lines[1..] == Bullets(db.value.names);
      forall k | 0 <= k < |lines| ensures '\n' !in lines[k] {
        if k > 0 {
          assert lines[k] == "• " + db.value.names[k - 1];
        }
      }
      assert Join(lines, '\n') == "Roles:" + ['\n'] + Join(Bullets(db.value.names), '\n');
      assert "Roles:\n" + Join(Bullets(db.value.names), '\n') == "Roles:" + ['\n'] + Join(Bullets(db.value.names), '\n');
      SplitJoin(lines, '\n');
    }
  }

  /** A request that fails the signature check never reaches a command. */
  lemma SlackCommandGate(secret: Option<string>, req: SlackRequest, number: Option<real>, nowMs: nat, hmacHex: string,
                         db: Option<Roles>)
    ensures SlackCommand(secret, req, number, nowMs, hmacHex, db).status == 401 <==>
              SignatureCheck(secret, req, number, nowMs, hmacHex).Some?
    ensures SignatureCheck(secret, req, number, nowMs, hmacHex).None? ==>
              SlackCommand(secret, req, number, nowMs, hmacHex, db).text == CommandReply(req, db)
  {
  }
}
