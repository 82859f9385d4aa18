/**
 * Copying to the clipboard (src/utils/clipboard.ts): when the asynchronous
 * Clipboard API may be used, how the text is prepared, and the order in which
 * the four copy strategies are tried.
 *
 * The browser is described by what the code observes of it: whether the page is
 * a secure context, its hostname (`None` when reading it throws), whether
 * `navigator.clipboard.writeText` is a function, and how each strategy would
 * turn out.
 */
module Clipboard {
  import opened Wrappers
  import opened Strings

  datatype Page = Page(isSecureContext: bool, hostname: Option<string>, hasWriteText: bool)

  /** The four copy strategies, in the order they are tried. */
  datatype Strategy = WriteText | ClipboardItemWrite | TextareaCopy | EditableCopy

  /** A browser: the page, and the outcome each strategy would have. `itemWrite` tells
      whether `ClipboardItem` and `navigator.clipboard.write` exist. */
  datatype Browser = Browser(
    page: Page,
    hasDocument: bool,
    writeTextOk: bool,
    itemWrite: bool,
    itemWriteOk: bool,
    textareaOk: bool,
    editableOk: bool)

  /** `^172\.(1[6-9]|2[0-9]|3[0-1])\.`: an address in 172.16.0.0/12 (section 3 of RFC 1918). */
  predicate Private172(host: string) {
    |host| >= 7 && host[..4] == "172." && host[6] == '.'
    && ((host[4] == '1' && '6' <= host[5] <= '9')
        || (host[4] == '2' && '0' <= host[5] <= '9')
        || (host[4] == '3' && '0' <= host[5] <= '1'))
  }

  /** Hosts treated as local even outside a secure context. */
  predicate LocalLike(host: string) {
    host == "localhost" || host == "127.0.0.1"
    || StartsWith(host, "192.168.") || StartsWith(host, "10.")
    || Private172(host) || EndsWith(host, ".local")
  }

  /** `isModernClipboardAPIPossible`; `window` is `None` outside a browser. */
  function ModernPossible(window: Option<Page>): bool {
    if window.None? then false
    else
      var p := window.value;
      if !p.isSecureContext && (p.hostname.None? || !LocalLike(p.hostname.value)) then false
      else p.hasWriteText
  }

  /** The API is usable exactly in a browser that offers `writeText`, on a secure page or a
      local-looking host. */
  lemma ModernPossibleIff(window: Option<Page>)
    ensures ModernPossible(window) <==>
              window.Some? && window.value.hasWriteText
              && (window.value.isSecureContext
                  || (window.value.hostname.Some? && LocalLike(window.value.hostname.value)))
  {
  }

  /** The 172 rule is "second octet from 16 to 31": the host starts with `172.`, one of
      those numbers written in decimal, and a dot. */
  lemma Private172Octet(host: string)
    ensures Private172(host) <==>
              exists n :: 16 <= n <= 31 && StartsWith(host, "172." + NatToString(n) + ".")
  {
    if Private172(host) {
      var n := OctetOfPrivate(host);
      assert exists n :: 16 <= n <= 31 && StartsWith(host, "172." + NatToString(n) + ".");
    } else {
      forall n | 16 <= n <= 31 ensures !StartsWith(host, "172." + NatToString(n) + ".") {
        if StartsWith(host, "172." + NatToString(n) + ".") {
          PrivateOfOctet(host, n);
        }
      }
    }
  }

  /** The second octet of a host in 172.16.0.0/12. */
  lemma OctetOfPrivate(host: string) returns (n: nat)
    requires Private172(host)
    ensures 16 <= n <= 31 && StartsWith(host, "172." + NatToString(n) + ".")
  {
    n := (host[4] as int - '0' as int) * 10 + (host[5] as int - '0' as int);
    assert n / 10 == host[4] as int - '0' as int && n % 10 == host[5] as int - '0' as int;
    OctetPrefix(host, n);
  }

  lemma PrivateOfOctet(host: string, n: int)
    requires 16 <= n <= 31 && StartsWith(host, "172." + NatToString(n) + ".")
    ensures Private172(host)
  {
    OctetPrefix(host, n);
  }

  /** For one second octet `n`, the prefix test is the character test. */
  lemma OctetPrefix(host: string, n: int)
    requires 16 <= n <= 31
    ensures StartsWith(host, "172." + NatToString(n) + ".") <==>
              |host| >= 7 && host[..4] == "172." && host[6] == '.'
              && host[4] == ('0' as int + n / 10) as char && host[5] == ('0' as int + n % 10) as char
  {
    TwoDigits(n);
    var p := "172." + NatToString(n) + ".";
    assert |p| == 7 && p[..4] == "172." && p[4] == ('0' as int + n / 10) as char;
    assert p[5] == ('0' as int + n % 10) as char && p[6] == '.';
    if |host| >= 7 {
      assert host[..7] == p <==> host[..4] == p[..4] && host[4] == p[4] && host[5] == p[5] && host[6] == p[6];
    }
  }

  lemma TwoDigits(n: nat)
    requires 10 <= n < 100
    ensures NatToString(n) == [('0' as int + n / 10) as char, ('0' as int + n % 10) as char]
  {
  }

  /** `text.replace(/\r\n?/g, '\n')`: every CR LF pair and every lone CR becomes LF. */
  function NormalizeNewlines(s: string): string
    decreases |s|
  {
    if |s| == 0 then []
    else if s[0] == '\r' then
      if |s| >= 2 && s[1] == '\n' then "\n" + NormalizeNewlines(s[2..]) else "\n" + NormalizeNewlines(s[1..])
    else [s[0]] + NormalizeNewlines(s[1..])
  }

  /** No carriage return survives, and text without one is left as it is. */
  lemma {:induction false} NormalizeNewlinesSpec(s: string)
    ensures '\r' !in NormalizeNewlines(s)
    ensures '\r' !in s ==> NormalizeNewlines(s) == s
    ensures |NormalizeNewlines(s)| <= |s|
    decreases |s|
  {
    if |s| > 0 {
      if s[0] == '\r' && |s| >= 2 && s[1] == '\n' {
        NormalizeNewlinesSpec(s[2..]);
      } else {
        NormalizeNewlinesSpec(s[1..]);
        if '\r' !in s {
          assert '\r' !in s[1..];
          assert s == [s[0]] + s[1..];
        }
      }
    }
  }

  /** A prefix without a carriage return passes through unchanged. */
  lemma {:induction false} NormalizeNewlinesPrefix(t: string, v: string)
    requires '\r' !in t
    ensures NormalizeNewlines(t + v) == t + NormalizeNewlines(v)
    decreases |t|
  {
    if |t| > 0 {
      assert (t + v)[0] == t[0] && (t + v)[1..] == t[1..] + v;
      assert '\r' !in t[1..];
      NormalizeNewlinesPrefix(t[1..], v);
      assert t == [t[0]] + t[1..];
    } else {
      assert t + v == v;
    }
  }

  /** A CR LF pair becomes one LF, with the text before it kept as it is. */
  lemma NormalizeNewlinesCrLf(t: string, u: string)
    requires '\r' !in t
    ensures NormalizeNewlines(t + "\r\n" + u) == t + "\n" + NormalizeNewlines(u)
  {
    NormalizeNewlinesPrefix(t, "\r\n" + u);
    assert t + "\r\n" + u == t + ("\r\n" + u);
    assert ("\r\n" + u)[2..] == u;
  }

  /** A CR not followed by LF becomes one LF, with the text before it kept as it is. */
  lemma NormalizeNewlinesLoneCr(t: string, u: string)
    requires '\r' !in t
    requires |u| == 0 || u[0] != '\n'
    ensures NormalizeNewlines(t + "\r" + u) == t + "\n" + NormalizeNewlines(u)
  {
    NormalizeNewlinesPrefix(t, "\r" + u);
    assert t + "\r" + u == t + ("\r" + u);
    assert ("\r" + u)[1..] == u;
  }

  /** Each line break becomes exactly one LF: a CR LF pair and a CR not followed by LF,
      with the text before it kept as it is. */
  lemma NormalizeNewlinesBreaks(t: string, u: string)
    requires '\r' !in t
    ensures NormalizeNewlines(t + "\r\n" + u) == t + "\n" + NormalizeNewlines(u)
    ensures |u| == 0 || u[0] != '\n' ==> NormalizeNewlines(t + "\r" + u) == t + "\n" + NormalizeNewlines(u)
  {
    NormalizeNewlinesCrLf(t, u);
    if |u| == 0 || u[0] != '\n' {
      NormalizeNewlinesLoneCr(t, u);
    }
  }

  /** Normalising twice is normalising once. */
  lemma NormalizeNewlinesIdempotent(s: string)
    ensures NormalizeNewlines(NormalizeNewlines(s)) == NormalizeNewlines(s)
  {
    NormalizeNewlinesSpec(s);
    NormalizeNewlinesSpec(NormalizeNewlines(s));
  }

  /** One strategy: whether it is attempted at all, and whether it succeeds. */
  datatype Outcome = Outcome(strategy: Strategy, applies: bool, succeeds: bool)

  /** What a copy did: the text it copied, the strategies it attempted, and its result. */
  datatype Copy = Copy(value: string, tried: seq<Strategy>, ok: bool)

  /** The strategies attempted and the result: each applicable one in turn, stopping at the
      first success. */
  function Run(outcomes: seq<Outcome>): (seq<Strategy>, bool) {
    if |outcomes| == 0 then ([], false)
    else
      var o := outcomes[0];
      if !o.applies then Run(outcomes[1..])
      else if o.succeeds then ([o.strategy], true)
      else var rest := Run(outcomes[1..]); ([o.strategy] + rest.0, rest.1)
  }

  /** The strategies in their fixed order, as they would turn out in `b`. */
  function Outcomes(b: Browser): seq<Outcome> {
    [Outcome(WriteText, ModernPossible(Some(b.page)), b.writeTextOk),
     Outcome(ClipboardItemWrite, b.itemWrite, b.itemWriteOk),
     Outcome(TextareaCopy, true, b.textareaOk),
     Outcome(EditableCopy, true, b.editableOk)]
  }

  /** `copyTextToClipboard`; `window` is `None` outside a browser. */
  function CopyText(window: Option<Browser>, text: string): Copy {
    if window.None? || !window.value.hasDocument || text == [] then Copy(text, [], false)
    else
      var r := Run(Outcomes(window.value));
      Copy(NormalizeNewlines(text), r.0, r.1)
  }

  /** The applicable strategies of `outcomes`, in order. */
  function Applicable(outcomes: seq<Outcome>): seq<Strategy> {
    if |outcomes| == 0 then []
    else if outcomes[0].applies then [outcomes[0].strategy] + Applicable(outcomes[1..])
    else Applicable(outcomes[1..])
  }

  /** The run succeeds exactly when some applicable strategy would; it attempts the
      applicable strategies in order, a prefix of them that ends at the first success, or
      all of them when none succeeds. */
  lemma {:induction false} RunSpec(outcomes: seq<Outcome>)
    ensures Run(outcomes).1 <==> exists i :: 0 <= i < |outcomes| && outcomes[i].applies && outcomes[i].succeeds
    ensures !Run(outcomes).1 ==> Run(outcomes).0 == Applicable(outcomes)
    ensures Run(outcomes).1 ==> |Run(outcomes).0| >= 1 && Run(outcomes).0 <= Applicable(outcomes)
  {
    if |outcomes| > 0 {
      RunSpec(outcomes[1..]);
      var o := outcomes[0];
      if o.applies && o.succeeds {
        assert [o.strategy] <= [o.strategy] + Applicable(outcomes[1..]);
      } else {
        if exists i :: 0 <= i < |outcomes| && outcomes[i].applies && outcomes[i].succeeds {
          var i :| 0 <= i < |outcomes| && outcomes[i].applies && outcomes[i].succeeds;
          assert outcomes[1..][i - 1] == outcomes[i];
        }
        if exists i :: 0 <= i < |outcomes[1..]| && outcomes[1..][i].applies && outcomes[1..][i].succeeds {
          var i :| 0 <= i < |outcomes[1..]| && outcomes[1..][i].applies && outcomes[1..][i].succeeds;
          assert outcomes[i + 1] == outcomes[1..][i];
        }
      }
    }
  }

  /** Outside a browser, or for empty text, nothing is attempted and the result is false;
      otherwise the copied text has no carriage return, `writeText` is attempted first and
      only when the API is usable, the two `execCommand` fallbacks are always within reach,
      and the copy succeeds exactly when one of the strategies it reaches succeeds. */
  lemma CopyTextShape(window: Option<Browser>, text: string)
    ensures window.None? || !window.value.hasDocument || text == [] ==> CopyText(window, text) == Copy(text, [], false)
    ensures window.Some? && window.value.hasDocument && text != [] ==>
              var c := CopyText(window, text);
              var b := window.value;
              '\r' !in c.value
              && (c.ok <==> (ModernPossible(Some(b.page)) && b.writeTextOk) || (b.itemWrite && b.itemWriteOk)
                            || b.textareaOk || b.editableOk)
              && (|c.tried| > 0 && c.tried[0] == WriteText <==> ModernPossible(Some(b.page)))
              && (!c.ok ==> |c.tried| > 0 && c.tried[|c.tried| - 1] == EditableCopy)
  {
    if window.Some? && window.value.hasDocument && text != [] {
      var os := Outcomes(window.value);
      NormalizeNewlinesSpec(text);
      RunSpec(os);
      RunSpec(os[1..]);
      RunSpec(os[2..]);
      RunSpec(os[3..]);
      assert os[1..][0] == os[1] && os[1..][1..] == os[2..] && os[2..][0] == os[2] && os[2..][1..] == os[3..];
      assert os[3..][0] == os[3] && os[3..][1..] == [];
    }
  }

  /** The scenarios of the unit tests: an insecure page on 10.1.2.3 without
      `navigator.clipboard` cannot use the modern API and copies nothing when
      `execCommand` fails, succeeds through the textarea when `execCommand` works, and a
      secure page with `writeText` copies through it and succeeds. */
  lemma TestScenarios()
    ensures !ModernPossible(Some(Page(false, Some("10.1.2.3"), false)))
    ensures !CopyText(Some(Browser(Page(false, Some("10.1.2.3"), false), true, false, false, false, false, false)), "hello").ok
    ensures CopyText(Some(Browser(Page(false, Some("10.1.2.3"), false), true, false, false, false, true, false)), "via-fallback").ok
    ensures CopyText(Some(Browser(Page(true, Some("10.1.2.3"), true), true, true, false, false, false, false)), "hello").tried
            == [WriteText]
    ensures CopyText(Some(Browser(Page(true, Some("10.1.2.3"), true), true, true, false, false, false, false)), "hello").ok
  {
  }
}
