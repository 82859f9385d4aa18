/**
 * Segmentation of a chat message into plain-text and fenced code segments
 * (`parseMessageContent` in src/components/CodeBlock.tsx).
 *
 * The source runs the global regular expression  /```(\w+)?\n([\s\S]*?)```/g
 * over the message. A match is three backticks, an optional run of word
 * characters (the language tag), a line feed, and the shortest body up to the
 * next three backticks. Scanning resumes where the previous match ended.
 * Here the matcher is written out over suffixes of the message: every offset
 * below is relative to the string it is computed on.
 */
module CodeBlock {
  import opened Wrappers
  import opened Strings

  /** A rendered segment: what `parseMessageContent` returns, minus the React wrappers. */
  datatype Segment = Text(text: string) | Code(language: string, code: string)

  /** One piece of the tiling of a message: an unmatched gap, or one whole regex match. */
  datatype Piece = Gap(text: string) | Block(tag: string, code: string)

  /** One regex match found at offset 0: the captured tag and body, and its length. */
  datatype Match = Match(tag: string, code: string, len: nat)

  /** A match found by the search, at offset `at` of the searched string. */
  datatype Found = Found(at: nat, m: Match)

  /** JavaScript's `\w`. */
  predicate IsWordChar(c: char) {
    'A' <= c <= 'Z' || 'a' <= c <= 'z' || '0' <= c <= '9' || c == '_'
  }

  predicate IsWord(s: string) {
    forall k :: 0 <= k < |s| ==> IsWordChar(s[k])
  }

  /** Three backticks start at offset `j` of `s`. */
  predicate FenceAt(s: string, j: int) {
    0 <= j && j + 3 <= |s| && s[j] == '`' && s[j + 1] == '`' && s[j + 2] == '`'
  }

  /** No three backticks occur anywhere in `s`. */
  predicate FenceFree(s: string) {
    forall j :: 0 <= j < |s| ==> !FenceAt(s, j)
  }

  /** The characters one match consumes: the opening fence, the tag, a line feed,
      the body and the closing fence. */
  function Raw(p: Piece): string {
    match p
    case Gap(t) => t
    case Block(tag, code) => "```" + tag + "\n" + code + "```"
  }

  function Raws(ps: seq<Piece>): string {
    if |ps| == 0 then [] else Raw(ps[0]) + Raws(ps[1..])
  }

  /** Length of the run of word characters `s` starts with (greedy `\w+`). */
  function WordRun(s: string): (n: nat)
    ensures n <= |s| && IsWord(s[..n])
    ensures n == |s| || !IsWordChar(s[n])
  {
    if |s| > 0 && IsWordChar(s[0]) then
      var n := 1 + WordRun(s[1..]);
      assert s[..n] == [s[0]] + s[1..][..n - 1];
      n
    else 0
  }

  /** The first offset at or after `from` where three backticks start (lazy `[\s\S]*?```). */
  function FirstFence(s: string, from: nat): (r: Option<nat>)
    ensures r.Some? ==> from <= r.value && FenceAt(s, r.value)
    ensures r.Some? ==> forall j :: from <= j < r.value ==> !FenceAt(s, j)
    ensures r.None? ==> forall j :: from <= j ==> !FenceAt(s, j)
    decreases |s| - from
  {
    if from + 3 > |s| then None
    else if FenceAt(s, from) then Some(from)
    else FirstFence(s, from + 1)
  }

  /** The regex tried at offset 0 of `s`. */
  function MatchHere(s: string): (r: Option<Match>)
    ensures r.Some? ==> 7 <= r.value.len <= |s|
  {
    if !FenceAt(s, 0) then None
    else
      var n := WordRun(s[3..]);
      if 3 + n < |s| && s[3 + n] == '\n' then
        match FirstFence(s, 4 + n)
        case None => None
        case Some(c) =>
          Some(Match(s[3..3 + n], s[4 + n..c], c + 3))
      else None
  }

  /** A match consumes exactly the characters of the block it captures. */
  lemma MatchHereRaw(s: string)
    requires MatchHere(s).Some?
    ensures s[..MatchHere(s).value.len] == Raw(Block(MatchHere(s).value.tag, MatchHere(s).value.code))
  {
    var n := WordRun(s[3..]);
    var c := FirstFence(s, 4 + n).value;
    var m := MatchHere(s).value;
    assert m.tag == s[3..3 + n] && m.code == s[4 + n..c] && m.len == c + 3;
    BlockText(s, n, c);
  }

  /** Text cut at the fences and the line feed is the block written out. */
  lemma BlockText(s: string, n: nat, c: nat)
    requires FenceAt(s, 0) && 4 + n <= c && c + 3 <= |s| && s[3 + n] == '\n' && FenceAt(s, c)
    ensures s[..c + 3] == "```" + s[3..3 + n] + "\n" + s[4 + n..c] + "```"
  {
    assert s[..3] == "```" && s[c..c + 3] == "```";
    assert s[3 + n..4 + n] == "\n";
    SplitFive(s, 3, 3 + n, 4 + n, c, c + 3);
  }

  /** A prefix of a sequence cut at four offsets is the concatenation of the five parts. */
  lemma SplitFive<T>(s: seq<T>, a: nat, b: nat, c: nat, d: nat, e: nat)
    requires a <= b <= c <= d <= e <= |s|
    ensures s[..e] == s[..a] + s[a..b] + s[b..c] + s[c..d] + s[d..e]
  {
  }

  /** A match starts with a fence, its tag is a run of word characters, and its body
      holds no fence, not even one overlapping the closing fence: the body is the
      shortest run up to the next fence. */
  lemma MatchHereWellFormed(s: string)
    requires MatchHere(s).Some?
    ensures FenceAt(s, 0)
    ensures IsWord(MatchHere(s).value.tag) && FenceFree(MatchHere(s).value.code + "``")
  {
    var n := WordRun(s[3..]);
    var c := FirstFence(s, 4 + n).value;
    assert s[3..][..n] == s[3..3 + n];
    BodyIsFenceFree(s, 4 + n, c);
  }

  /** A body that ends at the first closing fence, followed by two of its backticks,
      holds no fence. */
  lemma BodyIsFenceFree(s: string, start: nat, c: nat)
    requires start <= c && FenceAt(s, c)
    requires forall j :: start <= j < c ==> !FenceAt(s, j)
    ensures FenceFree(s[start..c] + "``")
  {
    var t := s[start..c] + "``";
    assert t == s[start..c + 2];
    forall j | FenceAt(t, j) ensures false {
      assert FenceAt(s, start + j);
    }
  }

  /** The regex accepts every block written out, whatever follows it: a word tag and a
      body with no fence (not even one reaching into the closing fence) are captured as
      they are, and the match ends right after the closing fence. */
  lemma MatchHereComplete(tag: string, body: string, rest: string)
    requires IsWord(tag) && FenceFree(body + "``")
    ensures MatchHere(Raw(Block(tag, body)) + rest) == Some(Match(tag, body, |tag| + |body| + 7))
  {
    var s := Raw(Block(tag, body)) + rest;
    var n, c := |tag|, 4 + |tag| + |body|;
    BlockFences(tag, body, rest);
    BlockHead(tag, body, rest);
    BlockBody(tag, body, rest);
    WordRunOfWord(s[3..], n);
    FirstFenceSkips(s, 4 + n, c);
  }

  /** A block written out starts with a fence and has its closing fence after the body. */
  lemma BlockFences(tag: string, body: string, rest: string)
    ensures var s := Raw(Block(tag, body)) + rest;
            var c := 4 + |tag| + |body|;
            c + 3 <= |s| && FenceAt(s, 0) && FenceAt(s, c)
  {
    var close := "```" + rest;
    var s := Raw(Block(tag, body)) + rest;
    AppendAssoc("```" + tag + "\n" + body, "```", rest);
    FiveParts("```", tag, "\n", body, close);
    var c := 4 + |tag| + |body|;
    assert s[0] == '`' && s[1] == '`' && s[2] == '`';
    assert s[c] == close[0] && s[c + 1] == close[1] && s[c + 2] == close[2];
  }

  /** After the opening fence comes the tag, then a line feed. */
  lemma BlockHead(tag: string, body: string, rest: string)
    requires IsWord(tag)
    ensures var s := Raw(Block(tag, body)) + rest;
            var n := |tag|;
            3 + n < |s| && s[3 + n] == '\n' && s[3..3 + n] == tag
            && IsWord(s[3..][..n]) && !IsWordChar(s[3..][n])
  {
    var s := Raw(Block(tag, body)) + rest;
    AppendAssoc("```" + tag + "\n" + body, "```", rest);
    FiveParts("```", tag, "\n", body, "```" + rest);
    assert s[3..][..|tag|] == tag;
  }

  /** After the line feed comes the body, and no fence starts inside it. */
  lemma BlockBody(tag: string, body: string, rest: string)
    requires FenceFree(body + "``")
    ensures var s := Raw(Block(tag, body)) + rest;
            var n, c := |tag|, 4 + |tag| + |body|;
            c <= |s| && s[4 + n..c] == body
            && (forall j :: 4 + n <= j < c ==> !FenceAt(s, j))
  {
    var close := "```" + rest;
    var s := Raw(Block(tag, body)) + rest;
    AppendAssoc("```" + tag + "\n" + body, "```", rest);
    FiveParts("```", tag, "\n", body, close);
    assert close[..2] == "``";
    FenceFreeBeforeClose(s, body, 4 + |tag|);
  }

  /** A body copied into `s` at `start`, followed by two backticks there, leaves no fence
      starting inside the body. */
  lemma FenceFreeBeforeClose(s: string, body: string, start: nat)
    requires FenceFree(body + "``")
    requires start + |body| + 2 <= |s| && s[start..start + |body| + 2] == body + "``"
    ensures forall j :: start <= j < start + |body| ==> !FenceAt(s, j)
  {
    var t := body + "``";
    forall j | start <= j < start + |body| ensures !FenceAt(s, j) {
      var k := j - start;
      assert !FenceAt(t, k);
      assert s[j] == t[k] && s[j + 1] == t[k + 1] && s[j + 2] == t[k + 2];
    }
  }

  /** Where the parts of a sequence written in five parts sit. */
  lemma FiveParts<T>(a: seq<T>, b: seq<T>, c: seq<T>, d: seq<T>, e: seq<T>)
    ensures var s := a + b + c + d + e;
            var i, j, k := |a| + |b|, |a| + |b| + |c|, |a| + |b| + |c| + |d|;
            && |s| == k + |e|
            && (forall m :: 0 <= m < |a| ==> s[m] == a[m])
            && s[|a|..i] == b
            && (forall m :: 0 <= m < |c| ==> s[i + m] == c[m])
            && s[j..k] == d
            && (forall m :: 0 <= m < |e| ==> s[k + m] == e[m])
            && (|e| >= 2 ==> s[j..k + 2] == d + e[..2])
  {
    var s := a + b + c + d + e;
    var k := |a| + |b| + |c| + |d|;
    if |e| >= 2 {
      assert s[|a| + |b| + |c|..k + 2] == d + e[..2];
    }
  }

  /** A word followed by a non-word character is exactly the greedy run. */
  lemma {:induction false} WordRunOfWord(s: string, n: nat)
    requires n < |s| && IsWord(s[..n]) && !IsWordChar(s[n])
    ensures WordRun(s) == n
    decreases n
  {
    if n > 0 {
      assert s[..n][0] == s[0];
      var w := s[1..][..n - 1];
      assert IsWord(w) by {
        forall k | 0 <= k < |w| ensures IsWordChar(w[k]) {
          assert w[k] == s[..n][k + 1];
        }
      }
      WordRunOfWord(s[1..], n - 1);
    }
  }

  /** The search for the closing fence skips a stretch holding none. */
  lemma {:induction false} FirstFenceSkips(s: string, from: nat, c: nat)
    requires from <= c && FenceAt(s, c)
    requires forall j :: from <= j < c ==> !FenceAt(s, j)
    ensures FirstFence(s, from) == Some(c)
    decreases c - from
  {
    if from < c {
      FirstFenceSkips(s, from + 1, c);
    }
  }

  /** The leftmost offset of `s` where the regex matches, with that match
      (what `exec` returns when the search starts at offset 0). */
  function NextMatch(s: string): (r: Option<Found>)
    ensures r.Some? ==> r.value.at + r.value.m.len <= |s|
    ensures r.Some? ==> MatchHere(s[r.value.at..]) == Some(r.value.m)
  {
    if |s| == 0 then None
    else if MatchHere(s).Some? then
      assert s[0..] == s;
      Some(Found(0, MatchHere(s).value))
    else
      match NextMatch(s[1..])
      case None => None
      case Some(Found(k, m)) =>
        assert s[1..][k..] == s[k + 1..];
        Some(Found(k + 1, m))
  }

  /** `NextMatch` finds the leftmost match: the regex fails at every earlier offset,
      and when it finds none, the regex fails at every offset. */
  lemma {:induction false} NextMatchIsLeftmost(s: string)
    ensures NextMatch(s).Some? ==> forall j :: 0 <= j < NextMatch(s).value.at ==> MatchHere(s[j..]).None?
    ensures NextMatch(s).None? ==> forall j :: 0 <= j <= |s| ==> MatchHere(s[j..]).None?
    decreases |s|
  {
    if |s| == 0 {
      assert forall j :: 0 <= j <= |s| ==> s[j..] == s;
    } else if MatchHere(s).None? {
      NextMatchIsLeftmost(s[1..]);
      assert s[0..] == s;
      forall j | 1 <= j <= |s| ensures s[1..][j - 1..] == s[j..] { }
    }
  }

  /** The gap before a match (or after the last one): nothing when it is empty. */
  function GapOf(t: string): (ps: seq<Piece>)
    ensures Raws(ps) == t
  {
    if |t| == 0 then [] else [Gap(t)]
  }

  lemma {:induction false} RawsAppend(a: seq<Piece>, b: seq<Piece>)
    ensures Raws(a + b) == Raws(a) + Raws(b)
  {
    if |a| > 0 {
      assert (a + b)[0] == a[0] && (a + b)[1..] == a[1..] + b;
      RawsAppend(a[1..], b);
      assert Raws(a + b) == Raw(a[0]) + Raws(a[1..] + b);
    } else {
      assert a + b == b;
    }
  }

  /** The pieces the scanning loop visits, in order: each gap before a match, each
      match, and the text after the last match. */
  function Scan(s: string): seq<Piece>
    decreases |s|, 1
  {
    var r := NextMatch(s);
    if r.None? then GapOf(s) else ScanAt(s, r.value.at, r.value.m)
  }

  /** The pieces of `s` when its leftmost match is `m`, at offset `k`. */
  function ScanAt(s: string, k: nat, m: Match): seq<Piece>
    requires k + m.len <= |s| && m.len > 0
    decreases |s|, 0
  {
    GapOf(s[..k]) + [Block(m.tag, m.code)] + Scan(s[k + m.len..])
  }

  /** The pieces tile the message exactly: gaps, dropped or kept, and whole matches,
      taken in order, give back every character of it. */
  lemma {:induction false} ScanTiles(s: string)
    ensures Raws(Scan(s)) == s
    decreases |s|
  {
    match NextMatch(s)
    case None =>
    case Some(Found(k, m)) =>
      ScanTiles(s[k + m.len..]);
      MatchHereRaw(s[k..]);
      ScanUnfold(s, k, m);
      TileStep(s, k, m, Scan(s[k + m.len..]));
  }

  lemma TileStep(s: string, k: nat, m: Match, rest: seq<Piece>)
    requires k + m.len <= |s|
    requires s[k..][..m.len] == Raw(Block(m.tag, m.code))
    requires Raws(rest) == s[k + m.len..]
    ensures Raws(GapOf(s[..k]) + [Block(m.tag, m.code)] + rest) == s
  {
    var block := [Block(m.tag, m.code)];
    RawsAppend(GapOf(s[..k]) + block, rest);
    RawsAppend(GapOf(s[..k]), block);
    assert Raws(block) == Raw(Block(m.tag, m.code));
    SplitThree(s, k, m.len);
  }

  /** A sequence is its prefix, a middle part and the remaining suffix. */
  lemma SplitThree<T>(s: seq<T>, k: nat, n: nat)
    requires k + n <= |s|
    ensures s == s[..k] + s[k..][..n] + s[k + n..]
  {
  }

  /** The language shown for a block: the captured tag, or `text` when none was given. */
  function Language(tag: string): (lang: string)
    ensures tag != [] ==> lang == tag
    ensures tag == [] ==> lang == "text"
  {
    if tag == [] then "text" else tag
  }

  /** A gap is shown only if its trimmed form is not empty, that is, only if it is not
      blank (`Strings.TrimEmptyIffBlank`). */
  function KeepGap(t: string): (segs: seq<Segment>)
    ensures segs != [] <==> !IsBlank(t)
  {
    if !IsBlank(t) then [Text(t)] else []
  }

  /** What the loop emits for one piece: a kept gap, or a code segment for a block. */
  function KeepPiece(p: Piece): seq<Segment> {
    match p
    case Gap(t) => KeepGap(t)
    case Block(tag, code) => [Code(Language(tag), code)]
  }

  function Keep(ps: seq<Piece>): seq<Segment> {
    if |ps| == 0 then [] else KeepPiece(ps[0]) + Keep(ps[1..])
  }

  /** `parseMessageContent`: the kept segments, or the whole content as one text
      segment when the scan kept nothing. */
  function ParseMessageContent(content: string): (segs: seq<Segment>)
    ensures |segs| >= 1
  {
    var segs := Keep(Scan(content));
    if |segs| > 0 then segs else [Text(content)]
  }

  lemma {:induction false} KeepAppend(a: seq<Piece>, b: seq<Piece>)
    ensures Keep(a + b) == Keep(a) + Keep(b)
  {
    if |a| > 0 {
      assert (a + b)[1..] == a[1..] + b;
      KeepAppend(a[1..], b);
    } else {
      assert a + b == b;
    }
  }

  predicate PieceWellFormed(p: Piece) {
    match p
    case Gap(t) => t != []
    case Block(tag, code) => IsWord(tag) && FenceFree(code + "``")
  }

  /** Every piece of the scan is well formed: gaps are never empty, a tag is a run of
      word characters, and a body holds no fence, not even one that would overlap the
      closing fence, because the body is the shortest run up to the next fence. */
  lemma {:induction false} ScanWellFormed(s: string)
    ensures forall k :: 0 <= k < |Scan(s)| ==> PieceWellFormed(Scan(s)[k])
    decreases |s|
  {
    match NextMatch(s)
    case None =>
    case Some(Found(k, m)) =>
      ScanWellFormed(s[k + m.len..]);
      FoundWellFormed(s, k, m);
      HeadWellFormed(s[..k], Block(m.tag, m.code));
      ScanUnfold(s, k, m);
      AllWellFormed(GapOf(s[..k]) + [Block(m.tag, m.code)], Scan(s[k + m.len..]));
  }

  lemma FoundWellFormed(s: string, k: nat, m: Match)
    requires NextMatch(s) == Some(Found(k, m))
    ensures PieceWellFormed(Block(m.tag, m.code))
  {
    MatchHereWellFormed(s[k..]);
  }

  lemma HeadWellFormed(t: string, b: Piece)
    requires PieceWellFormed(b)
    ensures forall i :: 0 <= i < |GapOf(t) + [b]| ==> PieceWellFormed((GapOf(t) + [b])[i])
  {
  }

  lemma AllWellFormed(a: seq<Piece>, b: seq<Piece>)
    requires forall k :: 0 <= k < |a| ==> PieceWellFormed(a[k])
    requires forall k :: 0 <= k < |b| ==> PieceWellFormed(b[k])
    ensures forall k :: 0 <= k < |a + b| ==> PieceWellFormed((a + b)[k])
  {
  }

  /** `Scan` when the leftmost match is at offset `k`. */
  lemma ScanUnfold(s: string, k: nat, m: Match)
    requires NextMatch(s) == Some(Found(k, m))
    ensures Scan(s) == GapOf(s[..k]) + [Block(m.tag, m.code)] + Scan(s[k + m.len..])
  {
    ScanIsScanAt(s, k, m);
    ScanAtUnfold(s, k, m);
  }

  lemma ScanIsScanAt(s: string, k: nat, m: Match)
    requires NextMatch(s) == Some(Found(k, m))
    ensures k + m.len <= |s| && m.len > 0 && Scan(s) == ScanAt(s, k, m)
  {
  }

  lemma ScanAtUnfold(s: string, k: nat, m: Match)
    requires k + m.len <= |s| && m.len > 0
    ensures ScanAt(s, k, m) == GapOf(s[..k]) + [Block(m.tag, m.code)] + Scan(s[k + m.len..])
  {
  }

  /** One turn of the loop: the gap before the leftmost match, the match, then the rest. */
  lemma ScanStep(s: string, k: nat, m: Match)
    requires NextMatch(s) == Some(Found(k, m))
    ensures Keep(Scan(s)) == KeepGap(s[..k]) + [Code(Language(m.tag), m.code)] + Keep(Scan(s[k + m.len..]))
  {
    var block := [Block(m.tag, m.code)];
    ScanUnfold(s, k, m);
    KeepAppend(GapOf(s[..k]) + block, Scan(s[k + m.len..]));
    KeepAppend(GapOf(s[..k]), block);
    assert Keep(block) == [Code(Language(m.tag), m.code)];
    assert Keep(GapOf(s[..k])) == KeepGap(s[..k]) by {
      if s[..k] == [] { assert IsBlank([]); }
    }
  }

  /** After the last match, the rest of the message is one gap. */
  lemma ScanNoMatch(s: string)
    requires NextMatch(s).None?
    ensures Keep(Scan(s)) == KeepGap(s)
  {
    if s == [] { assert IsBlank([]); }
  }

  /** A message without any fence is shown as one text segment holding all of it. */
  lemma NoFenceIsOneText(content: string)
    requires FenceFree(content)
    ensures ParseMessageContent(content) == [Text(content)]
  {
    assert MatchHere(content[0..]).None? by {
      if |content| > 0 { assert !FenceAt(content, 0); }
    }
    match NextMatch(content)
    case None =>
      ScanNoMatch(content);
    case Some(Found(k, m)) =>
      MatchHereWellFormed(content[k..]);
      assert FenceAt(content, k);
      assert false;
  }

  /** Every text segment of a result is non-blank, unless the result is the whole
      content as its single text segment. */
  lemma {:induction false} KeptTextIsNotBlank(ps: seq<Piece>)
    ensures forall i :: 0 <= i < |Keep(ps)| && Keep(ps)[i].Text? ==> !IsBlank(Keep(ps)[i].text)
  {
    if |ps| > 0 {
      KeptTextIsNotBlank(ps[1..]);
      var h := KeepPiece(ps[0]);
      assert Keep(ps) == h + Keep(ps[1..]);
      forall i | 0 <= i < |Keep(ps)| && Keep(ps)[i].Text? ensures !IsBlank(Keep(ps)[i].text) {
        if i >= |h| {
          assert Keep(ps)[i] == Keep(ps[1..])[i - |h|];
        }
      }
    }
  }

  /** The result of `parseMessageContent` is the whole content as one text segment exactly
      when the scan kept nothing; otherwise no text segment of it is blank. */
  lemma ParseShape(content: string)
    ensures Keep(Scan(content)) == [] ==> ParseMessageContent(content) == [Text(content)]
    ensures Keep(Scan(content)) != [] ==>
              forall i :: 0 <= i < |ParseMessageContent(content)| && ParseMessageContent(content)[i].Text? ==>
                !IsBlank(ParseMessageContent(content)[i].text)
  {
    KeptTextIsNotBlank(Scan(content));
  }

}
