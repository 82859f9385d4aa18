/**
 * The message list of the chat screen (src/components/Chat.tsx): sending a
 * message, the three streaming callbacks, clearing the chat, and the choice of
 * model once the model list has arrived.
 *
 * React state is one immutable `State`; every handler is a function from the
 * state before to the state after. The two `Date.now()` readings of a send are the
 * parameters `now` and `later`.
 */
module ChatState {
  import opened Wrappers
  import opened Strings
  import ModelCatalog

  datatype Role = User | Assistant

  /** A chat message; `streaming` is `isStreaming`, absent meaning `false`. */
  datatype Message = Message(id: string, role: Role, content: string, streaming: bool)

  datatype State = State(
    messages: seq<Message>,
    input: string,                // inputMessage
    isLoading: bool,
    connectionError: Option<string>)

  const ConnectFailed: string := "Failed to connect to LiteLLM. Please check your configuration."
  const DefaultModelId: string := "gpt-3.5-turbo"

  /** A send goes ahead only for a non-blank input while no other send is in flight. */
  predicate CanSend(st: State) {
    Trim(st.input) != [] && !st.isLoading
  }

  /** `handleSendMessage` up to the API call: the user message and the empty streaming
      assistant message: the user id is the first clock reading, the assistant id the second
      reading plus one. */
  function Send(st: State, now: nat, later: nat): State {
    if !CanSend(st) then st
    else
      var user := Message(NatToString(now), User, Trim(st.input), false);
      var assistant := Message(AssistantId(later), Assistant, "", true);
      State(st.messages + [user, assistant], "", true, None)
  }

  /** The history handed to the API: the messages before the send, then the user message. */
  function History(st: State, now: nat): seq<Message> {
    st.messages + [Message(NatToString(now), User, Trim(st.input), false)]
  }

  /** The id of the assistant message a send creates. */
  function AssistantId(later: nat): string {
    NatToString(later + 1)
  }

  /** A blank input or a send in flight leaves everything as it was; otherwise the user
      message carries the trimmed input, the streaming assistant message follows it, the
      two ids differ unless the clock ran backwards between the readings, the input is
      cleared and loading begins. */
  lemma SendShape(st: State, now: nat, later: nat)
    ensures !CanSend(st) ==> Send(st, now, later) == st
    ensures CanSend(st) ==>
              var r := Send(st, now, later);
              |r.messages| == |st.messages| + 2
              && r.messages[..|st.messages|] == st.messages
              && r.messages[|st.messages|] == Message(NatToString(now), User, Trim(st.input), false)
              && r.messages[|st.messages| + 1] == Message(AssistantId(later), Assistant, "", true)
              && (now <= later ==> r.messages[|st.messages|].id != r.messages[|st.messages| + 1].id)
              && r.input == [] && r.isLoading && r.connectionError == None
              && r.messages[|st.messages|].content != []
  {
    if CanSend(st) {
      var r := Send(st, now, later);
      assert r.messages[..|st.messages|] == st.messages;
      if now <= later {
        assert DecimalValue(NatToString(now)) != DecimalValue(NatToString(later + 1));
      }
    }
  }

  /** `onChunk`: the chunk is appended to the message with the given id. */
  function AppendChunk(messages: seq<Message>, id: string, chunk: string): (r: seq<Message>)
    ensures |r| == |messages|
    ensures forall i :: 0 <= i < |r| ==>
              r[i] == if messages[i].id == id then messages[i].(content := messages[i].content + chunk)
                      else messages[i]
  {
    if |messages| == 0 then []
    else
      var m := messages[0];
      [if m.id == id then m.(content := m.content + chunk) else m] + AppendChunk(messages[1..], id, chunk)
  }

  /** `onComplete`: the message with the given id stops streaming, and loading ends. */
  function MarkComplete(messages: seq<Message>, id: string): (r: seq<Message>)
    ensures |r| == |messages|
    ensures forall i :: 0 <= i < |r| ==>
              r[i] == if messages[i].id == id then messages[i].(streaming := false) else messages[i]
  {
    if |messages| == 0 then []
    else
      var m := messages[0];
      [if m.id == id then m.(streaming := false) else m] + MarkComplete(messages[1..], id)
  }

  /** The messages whose id is not `id`, in order. */
  function Without(messages: seq<Message>, id: string): (r: seq<Message>)
    ensures |r| <= |messages|
  {
    if |messages| == 0 then []
    else if messages[0].id == id then Without(messages[1..], id)
    else [messages[0]] + Without(messages[1..], id)
  }

  function OnChunk(st: State, id: string, chunk: string): State {
    st.(messages := AppendChunk(st.messages, id, chunk))
  }

  function OnComplete(st: State, id: string): State {
    st.(messages := MarkComplete(st.messages, id), isLoading := false)
  }

  /** `onError`, and the `catch` around the call: report, drop the message, end loading. */
  function OnError(st: State, id: string): State {
    st.(messages := Without(st.messages, id), isLoading := false, connectionError := Some(ConnectFailed))
  }

  function ClearChat(st: State): State {
    st.(messages := [], connectionError := None)
  }

  /** An error removes exactly the messages with the given id and keeps every other one,
      each as often as it occurred. */
  lemma {:induction false} WithoutRemovesOnlyId(messages: seq<Message>, id: string)
    ensures forall m :: m in Without(messages, id) <==> m in messages && m.id != id
    ensures forall m :: multiset(Without(messages, id))[m] == if m.id == id then 0 else multiset(messages)[m]
  {
    if |messages| > 0 {
      WithoutRemovesOnlyId(messages[1..], id);
      assert messages == [messages[0]] + messages[1..];
      assert multiset(messages) == multiset([messages[0]]) + multiset(messages[1..]);
    }
  }

  /** On one message, an error drops it exactly when it has the id. With `WithoutAppend`
      this fixes the result as the messages without that id, in their original order. */
  lemma WithoutSingle(m: Message, id: string)
    ensures Without([m], id) == if m.id == id then [] else [m]
  {
    assert [m][1..] == [];
  }

  /** Without a message of that id, an error leaves the list alone. */
  lemma {:induction false} WithoutAbsent(messages: seq<Message>, id: string)
    requires forall i :: 0 <= i < |messages| ==> messages[i].id != id
    ensures Without(messages, id) == messages
  {
    if |messages| > 0 {
      WithoutAbsent(messages[1..], id);
      assert messages == [messages[0]] + messages[1..];
    }
  }

  /** The callbacks only touch the message list, the loading flag and the error line;
      the input is never touched, and clearing keeps the input and the loading flag. */
  lemma CallbacksKeepTheRest(st: State, id: string, chunk: string)
    ensures OnChunk(st, id, chunk).input == st.input && OnChunk(st, id, chunk).isLoading == st.isLoading
    ensures OnChunk(st, id, chunk).connectionError == st.connectionError
    ensures OnComplete(st, id).input == st.input && !OnComplete(st, id).isLoading
    ensures OnComplete(st, id).connectionError == st.connectionError
    ensures OnError(st, id).input == st.input && !OnError(st, id).isLoading
    ensures OnError(st, id).connectionError == Some(ConnectFailed)
    ensures ClearChat(st).messages == [] && ClearChat(st).connectionError == None
    ensures ClearChat(st).input == st.input && ClearChat(st).isLoading == st.isLoading
  {
  }

  /** The state after `onChunk` for every chunk, in order. */
  function Stream(st: State, id: string, chunks: seq<string>): State
    decreases |chunks|
  {
    if |chunks| == 0 then st else Stream(OnChunk(st, id, chunks[0]), id, chunks[1..])
  }

  /** Streaming `chunks` into the message `id` appends their concatenation to it and to
      nothing else. */
  lemma {:induction false} StreamConcatenates(st: State, id: string, chunks: seq<string>)
    ensures Stream(st, id, chunks) == OnChunk(st, id, Concat(chunks))
    decreases |chunks|
  {
    if |chunks| == 0 {
      AppendNothing(st.messages, id);
    } else {
      StreamConcatenates(OnChunk(st, id, chunks[0]), id, chunks[1..]);
      AppendTwice(st.messages, id, chunks[0], Concat(chunks[1..]));
    }
  }

  lemma AppendNothing(messages: seq<Message>, id: string)
    ensures AppendChunk(messages, id, "") == messages
  {
    forall i | 0 <= i < |messages| ensures AppendChunk(messages, id, "")[i] == messages[i] {
      assert messages[i].content + "" == messages[i].content;
    }
  }

  lemma {:induction false} AppendTwice(messages: seq<Message>, id: string, a: string, b: string)
    ensures AppendChunk(AppendChunk(messages, id, a), id, b) == AppendChunk(messages, id, a + b)
  {
    if |messages| > 0 {
      AppendTwice(messages[1..], id, a, b);
      var m := messages[0];
      var mid := AppendChunk(messages, id, a);
      assert mid[1..] == AppendChunk(messages[1..], id, a);
      if m.id == id {
        assert m.content + a + b == m.content + (a + b);
      }
    }
  }

  /** A whole successful exchange: once the send, every chunk and the completion have run,
      the list is the old list, the user message, and the assistant message holding the
      concatenated chunks and no longer streaming. */
  lemma Exchange(st: State, now: nat, later: nat, chunks: seq<string>)
    requires CanSend(st)
    requires now <= later
    requires forall i :: 0 <= i < |st.messages| ==> st.messages[i].id != AssistantId(later)
    ensures OnComplete(Stream(Send(st, now, later), AssistantId(later), chunks), AssistantId(later)).messages
            == History(st, now) + [Message(AssistantId(later), Assistant, Concat(chunks), false)]
    ensures !OnComplete(Stream(Send(st, now, later), AssistantId(later), chunks), AssistantId(later)).isLoading
  {
    var id := AssistantId(later);
    var sent := Send(st, now, later);
    SendShape(st, now, later);
    StreamConcatenates(sent, id, chunks);
    var streamed := OnChunk(sent, id, Concat(chunks));
    var done := OnComplete(streamed, id);
    var want := History(st, now) + [Message(id, Assistant, Concat(chunks), false)];
    assert |done.messages| == |want|;
    forall i | 0 <= i < |want| ensures done.messages[i] == want[i] {
      if i < |st.messages| {
        assert sent.messages[i] == st.messages[i];
      }
    }
  }

  /** A failed exchange: the assistant message is gone and the user message stays. */
  lemma FailedExchange(st: State, now: nat, later: nat, chunks: seq<string>)
    requires CanSend(st)
    requires now <= later
    requires forall i :: 0 <= i < |st.messages| ==> st.messages[i].id != AssistantId(later)
    ensures OnError(Stream(Send(st, now, later), AssistantId(later), chunks), AssistantId(later)).messages == History(st, now)
    ensures OnError(Stream(Send(st, now, later), AssistantId(later), chunks), AssistantId(later)).connectionError
            == Some(ConnectFailed)
  {
    var id := AssistantId(later);
    var sent := Send(st, now, later);
    SendShape(st, now, later);
    StreamConcatenates(sent, id, chunks);
    var streamed := OnChunk(sent, id, Concat(chunks));
    var h := History(st, now);
    assert streamed.messages == h + [streamed.messages[|h|]];
    assert streamed.messages[|h|].id == id;
    WithoutAbsent(h, id);
    WithoutAppend(h, [streamed.messages[|h|]], id);
  }

  /** A successful exchange when an earlier message already carries the new assistant id
      (the clock has repeated a reading since that message was made): the chunks go to that
      message as well, and it too stops streaming; the list is otherwise as in `Exchange`. */
  lemma ExchangeSharedId(st: State, now: nat, later: nat, chunks: seq<string>)
    requires CanSend(st)
    requires now <= later
    ensures var id := AssistantId(later);
            var r := OnComplete(Stream(Send(st, now, later), id, chunks), id).messages;
            && |r| == |st.messages| + 2
            && (forall i :: 0 <= i < |st.messages| ==>
                  r[i] == if st.messages[i].id == id
                          then st.messages[i].(content := st.messages[i].content + Concat(chunks), streaming := false)
                          else st.messages[i])
            && r[|st.messages|] == Message(NatToString(now), User, Trim(st.input), false)
            && r[|st.messages| + 1] == Message(id, Assistant, Concat(chunks), false)
  {
    var id := AssistantId(later);
    SendShape(st, now, later);
    StreamConcatenates(Send(st, now, later), id, chunks);
  }

  /** A failed exchange when earlier messages already carry the new assistant id: the
      filter removes them along with the placeholder, so the list is the earlier messages
      without that id, then the user message. */
  lemma FailedExchangeSharedId(st: State, now: nat, later: nat, chunks: seq<string>)
    requires CanSend(st)
    requires now <= later
    ensures OnError(Stream(Send(st, now, later), AssistantId(later), chunks), AssistantId(later)).messages
            == Without(st.messages, AssistantId(later)) + [Message(NatToString(now), User, Trim(st.input), false)]
  {
    var id := AssistantId(later);
    var sent := Send(st, now, later);
    var user := Message(NatToString(now), User, Trim(st.input), false);
    var assistant := Message(id, Assistant, "", true);
    SendShape(st, now, later);
    StreamConcatenates(sent, id, chunks);
    WithoutAfterAppend(sent.messages, id, Concat(chunks));
    assert sent.messages == (st.messages + [user]) + [assistant];
    WithoutAppend(st.messages + [user], [assistant], id);
    WithoutAppend(st.messages, [user], id);
    WithoutSingle(user, id);
    WithoutSingle(assistant, id);
  }

  /** Appending to the messages with an id and then removing them is removing them. */
  lemma {:induction false} WithoutAfterAppend(messages: seq<Message>, id: string, chunk: string)
    ensures Without(AppendChunk(messages, id, chunk), id) == Without(messages, id)
  {
    if |messages| > 0 {
      WithoutAfterAppend(messages[1..], id, chunk);
      assert AppendChunk(messages, id, chunk)[1..] == AppendChunk(messages[1..], id, chunk);
    }
  }

  lemma {:induction false} WithoutAppend(a: seq<Message>, b: seq<Message>, id: string)
    ensures Without(a + b, id) == Without(a, id) + Without(b, id)
  {
    if |a| > 0 {
      WithoutAppend(a[1..], b, id);
      assert (a + b)[1..] == a[1..] + b;
    } else {
      assert a + b == b;
    }
  }

  // ----- choosing the model -----

  /** The model a send uses: `selectedModel || env || 'gpt-3.5-turbo'`. */
  function ModelToUse(selected: Option<string>, env: Option<string>): (r: string)
    ensures r != []
    ensures Truthy(selected) ==> r == selected.value
    ensures !Truthy(selected) && Truthy(env) ==> r == env.value
    ensures !Truthy(selected) && !Truthy(env) ==> r == DefaultModelId
  {
    OrElse(JsOr(selected, env), DefaultModelId)
  }

  /** The selection the screen starts with: the configured model, else `gpt-3.5-turbo`. */
  function InitialModel(env: Option<string>): (r: string)
    ensures r != [] && (Truthy(env) ==> r == env.value)
    ensures !Truthy(env) ==> r == DefaultModelId
  {
    OrElse(env, DefaultModelId)
  }

  /** Some model in the list has exactly this id. */
  predicate Listed(models: seq<ModelCatalog.ModelInfo>, id: Option<string>) {
    exists i :: 0 <= i < |models| && models[i].id == id
  }

  /** The selection after the model list has loaded. `undefined` ids are `None`. */
  function PickModel(models: seq<ModelCatalog.ModelInfo>, selected: Option<string>, env: Option<string>): Option<string> {
    if |models| == 0 || Listed(models, selected) then selected
    else
      var preferred := JsOr(env, models[0].id);
      if Listed(models, preferred) then preferred else models[0].id
  }

  /** A listed selection is kept; otherwise the configured model is taken if it is listed,
      else the first model. After a non-empty list has loaded the selection is always one of
      its ids; an empty list leaves the selection alone. */
  lemma PickModelRule(models: seq<ModelCatalog.ModelInfo>, selected: Option<string>, env: Option<string>)
    ensures |models| == 0 ==> PickModel(models, selected, env) == selected
    ensures |models| > 0 ==> Listed(models, PickModel(models, selected, env))
    ensures Listed(models, selected) ==> PickModel(models, selected, env) == selected
    ensures !Listed(models, selected) && |models| > 0 && Truthy(env) && Listed(models, env) ==>
              PickModel(models, selected, env) == env
    ensures !Listed(models, selected) && |models| > 0 && !(Truthy(env) && Listed(models, env)) ==>
              PickModel(models, selected, env) == models[0].id
  {
    if |models| > 0 {
      assert models[0].id == models[0].id;
    }
  }

  /** The timestamp of a stored message: `timestamp`, else `created_at`
      (src/utils/sessionsAPI.ts). */
  function MessageTime(timestamp: Option<string>, createdAt: Option<string>): (r: Option<string>)
    ensures Truthy(timestamp) ==> r == timestamp
    ensures !Truthy(timestamp) ==> r == createdAt
  {
    JsOr(timestamp, createdAt)
  }
}
