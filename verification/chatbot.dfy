/**
 The `EventDrivenChatBot` of `EventDrivenProgramming.py`: its constructor,
 `handle_message`, and a session of calls made on one bot, such as the
 script at the end of `EventDrivenProgramming.py`.

 Callbacks are taken to leave the bot alone: none of them calls
 `register_callback` or `handle_message` while being dispatched. Under that
 assumption the list `handle_message` iterates over is the one it found on
 entry, and dispatching never changes the table.
 */
module ChatBot {
  import opened Events
  import opened Registry

  /** `handle_message(m)` as a trace: every callback under `m` once each, in
      registration order, or a single notice when `m` is unknown. */
  function Dispatch(r: AcceptedMessages, m: string): (t: seq<Event>)
    ensures m !in r ==> t == [NotUnderstood(m)]
    ensures m in r ==> |t| == |r[m]|
    ensures m in r ==> forall i :: 0 <= i < |t| ==> t[i] == Invoked(r[m][i])
    ensures m in r <==> NoNotice(t)
  {
    if m !in r then
      var notice := [NotUnderstood(m)];
      assert !notice[0].Invoked?;
      notice
    else Invocations(r[m])
  }

  /** `handle_message(m)` as the `for` loop it runs over the callbacks
      registered under `m`. */
  method HandleMessage(r: AcceptedMessages, m: string) returns (t: seq<Event>)
    ensures t == Dispatch(r, m)
  {
    if m !in r {
      t := [NotUnderstood(m)];
    } else {
      var callbacks := r[m];
      t := [];
      for i := 0 to |callbacks|
        invariant |t| == i
        invariant forall j :: 0 <= j < i ==> t[j] == Invoked(callbacks[j])
      {
        t := t + [Invoked(callbacks[i])];
      }
    }
  }

  /** Reading back a dispatch gives exactly the callbacks registered under
      the message, in order; an unknown message runs none. */
  lemma DispatchRunsRegistered(r: AcceptedMessages, m: string)
    ensures InvokedCallbacks(Dispatch(r, m)) == Lookup(r, m)
  {
    if m in r {
      InvocationsRoundTrip(r[m]);
    } else {
      assert InvokedCallbacks([NotUnderstood(m)]) == [];
    }
  }

  /** A callback registered under `m` runs after every callback already
      there; dispatching any other message is unaffected. */
  lemma DispatchAfterRegister(r: AcceptedMessages, m: string, c: Callback, k: string)
    ensures Dispatch(Register(r, m, c), m)
         == (if m in r then Dispatch(r, m) else []) + [Invoked(c)]
    ensures k != m ==> Dispatch(Register(r, m, c), k) == Dispatch(r, k)
  {
  }

  /** The four registrations `__init__` makes, in its order. */
  const Builtins: seq<Registration> := [
    Registration("hi", Greeting),
    Registration("bye", Departure),
    Registration("age?", Age),
    Registration("age?", AgeDetailed)
  ]

  /** A bot: its table of accepted messages and everything it has emitted. */
  datatype Bot = Bot(messages: AcceptedMessages, output: seq<Event>)

  /** The bot as `__init__` leaves it. */
  function New(): (b: Bot)
    ensures b.output == []
    ensures b.messages == map["hi" := [Greeting], "bye" := [Departure], "age?" := [Age, AgeDetailed]]
    ensures Valid(b.messages)
  {
    var empty: AcceptedMessages := map[];
    assert Builtins[..1][..0] == [];
    assert Apply(empty, Builtins[..1]) == map["hi" := [Greeting]];
    assert Builtins[..2][..1] == Builtins[..1];
    assert Apply(empty, Builtins[..2]) == map["hi" := [Greeting], "bye" := [Departure]];
    assert Builtins[..3][..2] == Builtins[..2];
    assert Apply(empty, Builtins[..3]) == map["hi" := [Greeting], "bye" := [Departure], "age?" := [Age]];
    assert [Age] + [AgeDetailed] == [Age, AgeDetailed];
    Bot(Apply(empty, Builtins), [])
  }

  /** A fresh bot understands exactly "hi", "bye" and "age?"; anything
      else, however close, draws one notice and runs nothing. */
  lemma NewDispatch(m: string)
    ensures Dispatch(New().messages, "hi") == [Invoked(Greeting)]
    ensures Dispatch(New().messages, "bye") == [Invoked(Departure)]
    ensures Dispatch(New().messages, "age?") == [Invoked(Age), Invoked(AgeDetailed)]
    ensures m != "hi" && m != "bye" && m != "age?" ==>
              Dispatch(New().messages, m) == [NotUnderstood(m)]
  {
  }

  /** One call made on a bot. */
  datatype Call =
    | Registering(message: string, callback: Callback)
    | Incoming(message: string)

  /** The bot after one call. */
  function Step(b: Bot, call: Call): (b': Bot)
    ensures call.Incoming? ==> b'.messages == b.messages
    ensures call.Incoming? ==> b'.output == b.output + Dispatch(b.messages, call.message)
    ensures call.Registering? ==> b'.output == b.output
    ensures |b.output| <= |b'.output| && b'.output[..|b.output|] == b.output
    ensures Valid(b.messages) ==> Valid(b'.messages)
  {
    match call
    case Registering(m, c) => Bot(Register(b.messages, m, c), b.output)
    case Incoming(m) => Bot(b.messages, b.output + Dispatch(b.messages, m))
  }

  /** The bot after the calls `calls`, made in order. */
  function Run(b: Bot, calls: seq<Call>): Bot
    decreases |calls|
  {
    if calls == [] then b
    else Step(Run(b, calls[..|calls| - 1]), calls[|calls| - 1])
  }

  /** The `register_callback` calls among `calls`, in order. */
  function RegistrationsOf(calls: seq<Call>): seq<Registration>
    decreases |calls|
  {
    if calls == [] then []
    else
      var init := RegistrationsOf(calls[..|calls| - 1]);
      match calls[|calls| - 1]
      case Registering(m, c) => init + [Registration(m, c)]
      case Incoming(_) => init
  }

  /** The registrations of a session are exactly its `register_callback`
      calls; a session of incoming messages alone registers nothing. */
  lemma {:induction false} RegistrationsOfMembers(calls: seq<Call>)
    ensures forall reg :: reg in RegistrationsOf(calls) <==> Registering(reg.message, reg.callback) in calls
    ensures (forall i :: 0 <= i < |calls| ==> calls[i].Incoming?) ==> RegistrationsOf(calls) == []
    ensures |RegistrationsOf(calls)| == |set i | 0 <= i < |calls| && calls[i].Registering?|
    decreases |calls|
  {
    if calls != [] {
      var init := calls[..|calls| - 1];
      var n := |calls| - 1;
      RegistrationsOfMembers(init);
      assert calls == init + [calls[n]];
      var before := set i | 0 <= i < |init| && init[i].Registering?;
      var after := set i | 0 <= i < |calls| && calls[i].Registering?;
      if calls[n].Registering? {
        assert after == before + {n};
      } else {
        assert after == before;
      }
    }
  }

  /** With callbacks that leave the bot alone, `handle_message` never
      changes the table: after any session, the table is the starting one
      with only the session's registrations applied. */
  lemma {:induction false} RunMessages(b: Bot, calls: seq<Call>)
    ensures Run(b, calls).messages == Apply(b.messages, RegistrationsOf(calls))
    decreases |calls|
  {
    if calls != [] {
      RunMessages(b, calls[..|calls| - 1]);
    }
  }

  /** Each reply in a session is the dispatch of its message against the
      table the session's earlier registrations have built. */
  lemma {:induction false} RunReply(b: Bot, calls: seq<Call>, m: string)
    ensures Run(b, calls + [Incoming(m)]).output
         == Run(b, calls).output + Dispatch(Apply(b.messages, RegistrationsOf(calls)), m)
  {
    RunMessages(b, calls);
    assert (calls + [Incoming(m)])[..|calls|] == calls;
  }

  /** A session only adds to the output and keeps the table's invariant. */
  lemma {:induction false} RunPreserves(b: Bot, calls: seq<Call>)
    ensures |b.output| <= |Run(b, calls).output|
    ensures Run(b, calls).output[..|b.output|] == b.output
    ensures Valid(b.messages) ==> Valid(Run(b, calls).messages)
    decreases |calls|
  {
    if calls != [] {
      RunPreserves(b, calls[..|calls| - 1]);
    }
  }

  /** The script at the end of `EventDrivenProgramming.py`: a fresh bot is
      sent "hi", "age?" and "bye". */
  const Script: seq<Call> := [Incoming("hi"), Incoming("age?"), Incoming("bye")]

  /** The script runs the greeting, both age handlers in registration
      order, then the farewell, and leaves the table as built. */
  lemma ScriptTrace()
    ensures Run(New(), Script).output
         == [Invoked(Greeting), Invoked(Age), Invoked(AgeDetailed), Invoked(Departure)]
    ensures Run(New(), Script).messages == New().messages
  {
    var b := New();
    NewDispatch("");
    assert Script[..1][..0] == [];
    assert Run(b, Script[..1]).output == [Invoked(Greeting)];
    assert Script[..2][..1] == Script[..1];
    assert Run(b, Script[..2]).output == [Invoked(Greeting), Invoked(Age), Invoked(AgeDetailed)];
  }
}
