/**
 The chatbot's `accepted_messages` table and `register_callback`.

 Keys are message strings matched exactly (case-sensitive); each key holds
 the callbacks registered under it, in registration order. Registration
 appends and never removes or de-duplicates.
 */
module Registry {
  import opened Events

  type AcceptedMessages = map<string, seq<Callback>>

  /** The table's invariant: no key is present with an empty list. */
  predicate Valid(r: AcceptedMessages) {
    forall m :: m in r ==> |r[m]| > 0
  }

  /** The callbacks under `m`, or none when `m` was never registered. */
  function Lookup(r: AcceptedMessages, m: string): seq<Callback> {
    if m in r then r[m] else []
  }

  /** `register_callback(m, c)`: create the list under `m` on first use,
      then append `c` to it. */
  function Register(r: AcceptedMessages, m: string, c: Callback): (r': AcceptedMessages)
    ensures m in r'
    ensures m in r ==> r'[m] == r[m] + [c]
    ensures m !in r ==> r'[m] == [c]
    ensures |r'[m]| == |Lookup(r, m)| + 1
    ensures r'.Keys == r.Keys + {m}
    ensures forall k :: k in r && k != m ==> r'[k] == r[k]
    ensures Valid(r) ==> Valid(r')
  {
    var r1 := if m !in r then r[m := []] else r;
    r1[m := r1[m] + [c]]
  }

  /** Registering the same callback twice under a key lists it twice:
      nothing is de-duplicated. */
  lemma RegisterTwice(r: AcceptedMessages, m: string, c: Callback)
    ensures Register(Register(r, m, c), m, c)[m] == Lookup(r, m) + [c, c]
  {
  }

  /** One call of `register_callback`. */
  datatype Registration = Registration(message: string, callback: Callback)

  /** The table after the calls `regs`, made in order, starting from `r`. */
  function Apply(r: AcceptedMessages, regs: seq<Registration>): AcceptedMessages
    decreases |regs|
  {
    if regs == [] then r
    else
      var last := regs[|regs| - 1];
      Register(Apply(r, regs[..|regs| - 1]), last.message, last.callback)
  }

  /** Reference definition: the callbacks of those calls in `regs` that
      name `m`, in call order. */
  function CallbacksFor(regs: seq<Registration>, m: string): (cs: seq<Callback>)
    ensures |cs| <= |regs|
    ensures forall c :: c in cs <==> Registration(m, c) in regs
    decreases |regs|
  {
    if regs == [] then []
    else
      var init := regs[..|regs| - 1];
      var last := regs[|regs| - 1];
      assert regs == init + [last];
      if last.message == m then CallbacksFor(init, m) + [last.callback]
      else CallbacksFor(init, m)
  }

  /** How many of the calls in `regs` are `reg`. */
  function Occurrences(regs: seq<Registration>, reg: Registration): nat
    decreases |regs|
  {
    if regs == [] then 0
    else Occurrences(regs[..|regs| - 1], reg) + (if regs[|regs| - 1] == reg then 1 else 0)
  }

  /** Each registration of `c` under `m` adds one more copy of `c` to the
      list under `m`, however many it already holds. */
  lemma {:induction false} ApplyCount(r: AcceptedMessages, regs: seq<Registration>, m: string, c: Callback)
    ensures multiset(Lookup(Apply(r, regs), m))[c]
         == multiset(Lookup(r, m))[c] + Occurrences(regs, Registration(m, c))
    decreases |regs|
  {
    if regs != [] {
      var init := regs[..|regs| - 1];
      var last := regs[|regs| - 1];
      ApplyCount(r, init, m, c);
      if last.message == m {
        assert Lookup(Apply(r, regs), m) == Lookup(Apply(r, init), m) + [last.callback];
      }
    }
  }

  /** The messages named by the calls in `regs`. */
  function MessagesOf(regs: seq<Registration>): set<string> {
    set i | 0 <= i < |regs| :: regs[i].message
  }

  /** After a series of registrations, the list under any key is the old
      list followed by exactly the callbacks registered under that key, in
      registration order. */
  lemma {:induction false} ApplyLookup(r: AcceptedMessages, regs: seq<Registration>, m: string)
    ensures Lookup(Apply(r, regs), m) == Lookup(r, m) + CallbacksFor(regs, m)
    decreases |regs|
  {
    if regs != [] {
      var init := regs[..|regs| - 1];
      ApplyLookup(r, init, m);
    }
  }

  /** Registration adds exactly the registered messages as keys. */
  lemma {:induction false} ApplyKeys(r: AcceptedMessages, regs: seq<Registration>)
    ensures Apply(r, regs).Keys == r.Keys + MessagesOf(regs)
    decreases |regs|
  {
    if regs != [] {
      var init := regs[..|regs| - 1];
      ApplyKeys(r, init);
      assert regs == init + [regs[|regs| - 1]];
      assert MessagesOf(regs) == MessagesOf(init) + {regs[|regs| - 1].message};
    }
  }

  /** The invariant survives any series of registrations. */
  lemma {:induction false} ApplyValid(r: AcceptedMessages, regs: seq<Registration>)
    requires Valid(r)
    ensures Valid(Apply(r, regs))
    decreases |regs|
  {
    if regs != [] {
      ApplyValid(r, regs[..|regs| - 1]);
    }
  }
}
