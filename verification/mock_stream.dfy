/**
 * The offline fallback of both chat clients (`provideMockStreamResponse` in
 * src/utils/chatAPIProxy.ts and src/utils/chatAPI.ts): a canned answer that
 * echoes the last user message, optionally followed by a sample Python block,
 * streamed word by word.
 */
module MockStream {
  import opened Strings

  /** Which client produced the answer: the two differ only in the sentence they open with. */
  datatype Backend = Proxy | LiteLLM

  function Intro(b: Backend): string {
    match b
    case Proxy => "I'm a mock response since the backend proxy is not available. You asked: \""
    case LiteLLM => "I'm a mock response since the LiteLLM server is not available. You asked: \""
  }

  /** The sample appended when the user seems to ask for code. */
  const Sample: string :=
    "\n\nHere's a sample Python function:\n\n```python\ndef hello_world():\n    print(\"Hello, World!\")\n"
    + "    return \"Success\"\n\n# Call the function\nhello_world()\n```\n\n"
    + "This is just a mock response for testing purposes."

  /** The trigger: the lower-cased message contains `code`, `function` or `python`. */
  predicate AsksForCode(content: string) {
    var lower := ToLower(content);
    Contains(lower, "code") || Contains(lower, "function") || Contains(lower, "python")
  }

  /** The canned answer to a last message `content`. */
  function MockResponse(b: Backend, content: string): string {
    Intro(b) + content + "\"" + (if AsksForCode(content) then Sample else "")
  }

  /** `w` occurs in `s` at offset `i` once every ASCII capital of `s` is lowered. */
  predicate LowerMatchAt(s: string, w: string, i: int) {
    0 <= i <= |s| - |w| && forall j :: 0 <= j < |w| ==> LowerChar(s[i + j]) == w[j]
  }

  ghost predicate OccursIgnoringCase(s: string, w: string) {
    exists i :: LowerMatchAt(s, w, i)
  }

  /** Searching the lower-cased text is searching the text without regard to ASCII case. */
  lemma ContainsLowerIffOccurs(s: string, w: string)
    ensures Contains(ToLower(s), w) <==> OccursIgnoringCase(s, w)
  {
    var t := ToLower(s);
    ContainsIffOccurs(t, w);
    if Contains(t, w) {
      var i :| 0 <= i <= |t| - |w| && StartsWith(t[i..], w);
      forall j | 0 <= j < |w| ensures LowerChar(s[i + j]) == w[j] {
        assert t[i..][j] == t[i + j];
      }
      assert LowerMatchAt(s, w, i);
    }
    if OccursIgnoringCase(s, w) {
      var i :| LowerMatchAt(s, w, i);
      assert t[i..][..|w|] == w;
      assert StartsWith(t[i..], w);
    }
  }

  /** The answer quotes the question, and it carries the sample exactly when the question
      mentions code, a function or Python, in any ASCII case. */
  lemma MockResponseShape(b: Backend, content: string)
    ensures StartsWith(MockResponse(b, content), Intro(b) + content)
    ensures EndsWith(MockResponse(b, content), Sample) <==>
              OccursIgnoringCase(content, "code") || OccursIgnoringCase(content, "function")
              || OccursIgnoringCase(content, "python")
  {
    ContainsLowerIffOccurs(content, "code");
    ContainsLowerIffOccurs(content, "function");
    ContainsLowerIffOccurs(content, "python");
    var head := Intro(b) + content + "\"";
    var tail := if AsksForCode(content) then Sample else "";
    AppendStartsWith(Intro(b) + content, "\"" + tail);
    assert Sample[|Sample| - 1] == '.';
    OptionalSuffix(head, Sample, AsksForCode(content));
  }

  /** Text ending in a quote ends with a sample that does not end in a quote exactly
      when the sample was appended. */
  lemma OptionalSuffix(head: string, sample: string, appended: bool)
    requires head != [] && head[|head| - 1] == '"'
    requires sample != [] && sample[|sample| - 1] != '"'
    ensures EndsWith(head + (if appended then sample else ""), sample) <==> appended
  {
    var r := head + (if appended then sample else "");
    if appended {
      assert r[|r| - |sample|..] == sample;
    } else {
      assert r == head;
      if |sample| <= |r| {
        assert r[|r| - |sample|..][|sample| - 1] == r[|r| - 1];
      }
    }
  }

  lemma AppendStartsWith(a: string, b: string)
    ensures StartsWith(a + b, a)
  {
    assert (a + b)[..|a|] == a;
  }

  /** Every word after the first, with the space that preceded it put back. */
  function Spaced(words: seq<string>): (r: seq<string>)
    ensures |r| == |words|
    ensures forall i :: 0 <= i < |r| ==> r[i] == [' '] + words[i]
  {
    if |words| == 0 then [] else [[' '] + words[0]] + Spaced(words[1..])
  }

  /** The chunks streamed for a list of words: the first word as it is, every later word
      behind one space. */
  function SpacedChunks(words: seq<string>): (chunks: seq<string>)
    requires |words| >= 1
    ensures |chunks| == |words|
  {
    [words[0]] + Spaced(words[1..])
  }

  /** The chunks streamed for `response`: its space-separated words, each word after the
      first carrying one leading space. Empty words (from doubled spaces) are kept. */
  function WordChunks(response: string): (chunks: seq<string>)
    ensures |chunks| == |Split(response, ' ')|
  {
    SpacedChunks(Split(response, ' '))
  }

  /** The chunks, concatenated, are the response: nothing is lost or added. */
  lemma WordChunksConcat(response: string)
    ensures Concat(WordChunks(response)) == response
  {
    JoinIsSpacedConcat(Split(response, ' '));
  }

  /** Joining with spaces is writing the first word and then every later word behind a space. */
  lemma {:induction false} JoinIsSpacedConcat(words: seq<string>)
    requires |words| >= 1
    ensures Join(words, ' ') == Concat([words[0]] + Spaced(words[1..]))
    decreases |words|
  {
    var c := [words[0]] + Spaced(words[1..]);
    assert c[1..] == Spaced(words[1..]);
    if |words| == 1 {
      assert Spaced(words[1..]) == [];
    } else {
      var rest := words[1..];
      JoinIsSpacedConcat(rest);
      assert rest[1..] == words[2..];
      assert Spaced(rest) == [[' '] + rest[0]] + Spaced(rest[1..]);
      assert Concat(Spaced(rest)) == ([' '] + rest[0]) + Concat(Spaced(rest[1..]));
    }
  }

  /** The first chunk is the first word; every later chunk is its word behind one space. */
  lemma WordChunksAreWords(response: string)
    ensures WordChunks(response)[0] == Split(response, ' ')[0]
    ensures forall i :: 1 <= i < |WordChunks(response)| ==> WordChunks(response)[i] == [' '] + Split(response, ' ')[i]
  {
  }

  /** Apart from its leading space, no later chunk contains a space. */
  lemma WordChunksHaveOneSpace(response: string)
    ensures forall i :: 1 <= i < |WordChunks(response)| ==>
              WordChunks(response)[i][0] == ' ' && ' ' !in WordChunks(response)[i][1..]
  {
    var words := Split(response, ' ');
    SplitFieldsAreSeparatorFree(response, ' ');
    forall i | 1 <= i < |WordChunks(response)|
      ensures WordChunks(response)[i][0] == ' ' && ' ' !in WordChunks(response)[i][1..]
    {
      assert WordChunks(response)[i] == [' '] + words[i];
      assert WordChunks(response)[i][1..] == words[i];
    }
  }

  /** The streaming loop: `onChunk(i === 0 ? words[i] : ' ' + words[i])` for every word. */
  method SpacedChunksLoop(words: seq<string>) returns (chunks: seq<string>)
    requires |words| >= 1
    ensures chunks == SpacedChunks(words)
  {
    chunks := [];
    var i := 0;
    while i < |words|
      invariant 0 <= i <= |words|
      invariant |chunks| == i
      invariant forall k :: 0 <= k < i ==> chunks[k] == if k == 0 then words[0] else [' '] + words[k]
    {
      chunks := chunks + [if i == 0 then words[i] else [' '] + words[i]];
      i := i + 1;
    }
  }
}
