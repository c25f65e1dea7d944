/**
 Callbacks and the observable effects of dispatching them.

 The chatbot's callbacks print text and read a wall clock; neither is part
 of this model. A callback is an abstract name, and running it is recorded
 as an `Invoked` event in a trace. The one notice the dispatcher itself
 produces, for a message nobody registered, is the `NotUnderstood` event.
 */
module Events {

  /** The four built-in handlers of the chatbot, plus any other callable
      a caller registers (told apart by an identifier). */
  datatype Callback =
    | Greeting
    | Departure
    | Age
    | AgeDetailed
    | Other(id: nat)

  /** One observable step of a dispatch. */
  datatype Event =
    | Invoked(callback: Callback)
    | NotUnderstood(message: string)

  /** The trace of running each callback of `cs` once, in order. */
  function Invocations(cs: seq<Callback>): (t: seq<Event>)
    ensures |t| == |cs|
    ensures forall i :: 0 <= i < |cs| ==> t[i] == Invoked(cs[i])
  {
    if cs == [] then [] else [Invoked(cs[0])] + Invocations(cs[1..])
  }

  /** The callbacks a trace shows as run, in order; notices are skipped. */
  function InvokedCallbacks(t: seq<Event>): seq<Callback> {
    if t == [] then []
    else
      var rest := InvokedCallbacks(t[1..]);
      match t[0]
      case Invoked(c) => [c] + rest
      case NotUnderstood(_) => rest
  }

  /** True when a trace holds no "not understood" notice. */
  predicate NoNotice(t: seq<Event>) {
    forall i :: 0 <= i < |t| ==> t[i].Invoked?
  }

  /** Reading back the callbacks of an invocation trace gives the callbacks
      that were run, in the same order: nothing dropped, added or reordered. */
  lemma {:induction false} InvocationsRoundTrip(cs: seq<Callback>)
    ensures InvokedCallbacks(Invocations(cs)) == cs
  {
    if cs != [] {
      var t := Invocations(cs);
      assert t[1..] == Invocations(cs[1..]);
      InvocationsRoundTrip(cs[1..]);
    }
  }

  /** A callback is read back from a trace exactly when the trace invokes
      it. */
  lemma {:induction false} InvokedCallbacksMembers(t: seq<Event>)
    ensures forall c :: c in InvokedCallbacks(t) <==> Invoked(c) in t
  {
    if t != [] {
      InvokedCallbacksMembers(t[1..]);
      assert t == [t[0]] + t[1..];
    }
  }
}
