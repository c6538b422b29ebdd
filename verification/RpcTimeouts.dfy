// The adapting timeouts of RPC calls (apmec/common/rpc.py, _ContextWrapper): one table shared
// by all clients, one remembered timeout per wrapped context. Calls overlap: between the start
// of a call and its timeout any number of other calls may start and time out, and the ceiling
// may change.
module RpcTimeouts {
  import opened Wrappers

  type Method = string
  type ContextId = nat

  // `conf` is rpc_response_timeout, `fallback` what the table's default factory gives.
  datatype Shared = Shared(conf: nat, table: map<Method, int>, fallback: int, ceiling: Option<int>)

  function MinOf(a: int, b: int): int {
    if b < a then b else a
  }

  // get_max_timeout: a ceiling of zero counts as none.
  function MaxTimeout(s: Shared): int {
    if s.ceiling.Some? && s.ceiling.value != 0 then s.ceiling.value else s.conf * 10
  }

  function Initial(conf: nat): Shared {
    Shared(conf, map[], conf, None)
  }

  function Entry(s: Shared, m: Method): int {
    if m in s.table then s.table[m] else s.fallback
  }

  // Reading the table enters the default for a new method.
  function Touch(s: Shared, m: Method): Shared {
    s.(table := s.table[m := Entry(s, m)])
  }

  // What a call does when it times out after waiting for `timeout`.
  function Raise(s: Shared, m: Method, timeout: int): Shared {
    var t := Touch(s, m);
    var raised := MinOf(timeout * 2, MaxTimeout(s));
    if raised > Entry(s, m) then t.(table := t.table[m := raised]) else t
  }

  function SetMax(s: Shared, maxTimeout: int): Shared {
    if maxTimeout < MaxTimeout(s) then
      s.(table := map k | k in s.table :: MinOf(s.table[k], maxTimeout),
         fallback := maxTimeout, ceiling := Some(maxTimeout))
    else s
  }

  // The class-level state.
  class MethodTimeouts {
    const conf: nat
    var table: map<Method, int>
    var fallback: int
    var ceiling: Option<int>

    function State(): Shared
      reads this
    {
      Shared(conf, table, fallback, ceiling)
    }

    constructor (conf: nat)
      ensures State() == Initial(conf)
    {
      this.conf := conf;
      table, fallback, ceiling := map[], conf, None;
    }

    method ResetTimeouts()
      modifies this
      ensures State() == Initial(conf)
    {
      table, fallback, ceiling := map[], conf, None;
    }

    method GetMaxTimeout() returns (r: int)
      ensures r == MaxTimeout(State())
    {
      if ceiling.Some? && ceiling.value != 0 {
        return ceiling.value;
      }
      return conf * 10;
    }

    method SetMaxTimeout(maxTimeout: int)
      modifies this
      ensures State() == SetMax(old(State()), maxTimeout)
    {
      var current := GetMaxTimeout();
      if maxTimeout < current {
        table := map k | k in table :: MinOf(table[k], maxTimeout);
        fallback := maxTimeout;
        ceiling := Some(maxTimeout);
      }
    }

    method Lookup(m: Method) returns (r: int)
      modifies this`table
      ensures r == Entry(old(State()), m) && State() == Touch(old(State()), m)
    {
      if m !in table {
        table := table[m := fallback];
      }
      assert table == old(table)[m := Entry(old(State()), m)];
      return table[m];
    }
  }

  // One wrapped context, which may serve several calls at a time.
  class ContextWrapper {
    const timeouts: MethodTimeouts
    var timeout: int

    constructor (timeouts: MethodTimeouts)
      ensures this.timeouts == timeouts
    {
      this.timeouts := timeouts;
      timeout := 0;
    }

    method StartCall(m: Method)
      modifies this, timeouts
      ensures timeouts.State() == Touch(old(timeouts.State()), m)
      ensures timeout == Entry(old(timeouts.State()), m)
    {
      timeout := timeouts.Lookup(m);
    }

    method CallTimedOut(m: Method)
      modifies timeouts
      ensures timeouts.State() == Raise(old(timeouts.State()), m, timeout)
    {
      var entry := timeouts.Lookup(m);
      var cap := timeouts.GetMaxTimeout();
      var raised := MinOf(timeout * 2, cap);
      if raised > entry {
        timeouts.table := timeouts.table[m := raised];
      }
    }
  }

  // ---- Any interleaving ----

  datatype System = System(shared: Shared, contexts: map<ContextId, int>)

  datatype Event =
    | Start(ctx: ContextId, m: Method)
    | TimedOut(ctx: ContextId, m: Method)
    | ChangeCeiling(maxTimeout: int)
    | Reset

  function Do(s: System, e: Event): System {
    match e
    case Start(ctx, m) => System(Touch(s.shared, m), s.contexts[ctx := Entry(s.shared, m)])
    case TimedOut(ctx, m) =>
      if ctx in s.contexts then s.(shared := Raise(s.shared, m, s.contexts[ctx])) else s
    case ChangeCeiling(maxTimeout) => s.(shared := SetMax(s.shared, maxTimeout))
    case Reset => s.(shared := Initial(s.shared.conf))
  }

  function Run(s: System, es: seq<Event>): System
    decreases |es|
  {
    if es == [] then s else Run(Do(s, es[0]), es[1..])
  }

  // No timeout a call may be given exceeds the ceiling.
  ghost predicate Bounded(s: Shared) {
    forall m :: Entry(s, m) <= MaxTimeout(s)
  }

  lemma StepBounded(s: System, e: Event)
    requires Bounded(s.shared)
    ensures Bounded(Do(s, e).shared)
  {
    if e.ChangeCeiling? && e.maxTimeout < MaxTimeout(s.shared) {
      FallbackBounded(s.shared);
      forall m ensures Entry(Do(s, e).shared, m) <= MaxTimeout(Do(s, e).shared) {
        assert Entry(s.shared, m) <= MaxTimeout(s.shared);
      }
    } else if !e.Reset? {
      forall m ensures Entry(Do(s, e).shared, m) <= MaxTimeout(Do(s, e).shared) {
        assert Entry(s.shared, m) <= MaxTimeout(s.shared);
      }
    }
  }

  // Some method is not in the table.
  lemma FallbackBounded(s: Shared)
    requires Bounded(s)
    ensures s.fallback <= MaxTimeout(s)
  {
    var m := Fresh(s.table.Keys);
    assert Entry(s, m) == s.fallback;
  }

  function Dashes(n: nat): (s: string)
    ensures |s| == n
  {
    seq(n, i => '-')
  }

  lemma {:induction false} Fresh(names: set<string>) returns (m: string)
    ensures m !in names && forall n | n in names :: |n| < |m|
    decreases |names|
  {
    if names == {} {
      return "";
    }
    var n :| n in names;
    var rest := Fresh(names - {n});
    m := Dashes(if |rest| > |n| then |rest| else |n| + 1);
    forall x | x in names ensures |x| < |m| {
      assert x == n || x in names - {n};
    }
  }

  // Whatever calls overlap and however the ceiling is changed, in both directions or to zero or
  // below, no timeout ever exceeds get_max_timeout().
  lemma {:induction false} AlwaysBounded(conf: nat, contexts: map<ContextId, int>, es: seq<Event>)
    ensures Bounded(Run(System(Initial(conf), contexts), es).shared)
  {
    RunBounded(System(Initial(conf), contexts), es);
  }

  lemma {:induction false} RunBounded(s: System, es: seq<Event>)
    requires Bounded(s.shared)
    ensures Bounded(Run(s, es).shared)
    decreases |es|
  {
    if es != [] {
      StepBounded(s, es[0]);
      RunBounded(Do(s, es[0]), es[1..]);
    }
  }

  // Calls never lower a timeout nor move the ceiling; that is left to ceiling changes and resets.
  lemma {:induction false} CallsNeverLower(s: System, es: seq<Event>, m: Method)
    requires forall e | e in es :: e.Start? || e.TimedOut?
    ensures Entry(Run(s, es).shared, m) >= Entry(s.shared, m)
    ensures MaxTimeout(Run(s, es).shared) == MaxTimeout(s.shared)
    decreases |es|
  {
    if es != [] {
      assert es[0] in es;
      CallsNeverLower(Do(s, es[0]), es[1..], m);
    }
  }

  // ---- A ceiling change that raises timeouts ----

  predicate CallsOnly(es: seq<Event>) {
    forall e | e in es :: e.Start? || e.TimedOut?
  }

  // The methods in the table are those that calls were made of.
  predicate Called(es: seq<Event>, m: Method) {
    exists e | e in es :: (e.Start? || e.TimedOut?) && e.m == m
  }

  lemma {:induction false} TableSoFar(s: System, es: seq<Event>, m: Method)
    requires CallsOnly(es)
    ensures Run(s, es).shared.fallback == s.shared.fallback && MaxTimeout(Run(s, es).shared) == MaxTimeout(s.shared)
    ensures m in s.shared.table ==> m in Run(s, es).shared.table
    ensures m !in s.shared.table && !Called(es, m) ==> m !in Run(s, es).shared.table
    ensures (exists e | e in es :: e.Start? && e.m == m) ==> m in Run(s, es).shared.table
    decreases |es|
  {
    if es != [] {
      assert es[0] in es && es == [es[0]] + es[1..];
      TableSoFar(Do(s, es[0]), es[1..], m);
    }
  }

  // Lowering the ceiling to less than ten times the configured timeout, but to more than that
  // timeout itself, raises the timeout of every method no call has been made of yet, and of no
  // other: they start at the ceiling from then on.
  lemma CeilingRaisesExactly(conf: nat, contexts: map<ContextId, int>, es: seq<Event>, ceiling: int, m: Method)
    requires CallsOnly(es)
    ensures var before := Run(System(Initial(conf), contexts), es);
            var after := Run(System(Initial(conf), contexts), es + [ChangeCeiling(ceiling)]);
            && (Entry(after.shared, m) > Entry(before.shared, m) <==>
                conf < ceiling < conf * 10 && m !in before.shared.table)
            && (conf < ceiling < conf * 10 && !Called(es, m) ==>
                Entry(before.shared, m) == conf && Entry(after.shared, m) == ceiling)
            && ((exists e | e in es :: e.Start? && e.m == m) ==> m in before.shared.table)
  {
    var s := System(Initial(conf), contexts);
    TableSoFar(s, es, m);
    RunThen(s, es, ChangeCeiling(ceiling));
  }

  lemma {:induction false} RunThen(s: System, es: seq<Event>, e: Event)
    ensures Run(s, es + [e]) == Do(Run(s, es), e)
    decreases |es|
  {
    if es == [] {
      assert es + [e] == [e] && [e][1..] == [];
      assert Run(Do(s, e), []) == Do(s, e);
    } else {
      assert (es + [e])[1..] == es[1..] + [e];
      RunThen(Do(s, es[0]), es[1..], e);
    }
  }

  // A change to a smaller ceiling, after anything at all, cuts learned timeouts that are longer and
  // leaves the others as they are; methods not called yet start at the ceiling, which a ceiling of
  // zero makes zero although it does not limit anything afterwards. Other changes do nothing.
  lemma CeilingCutsExactly(s: System, es: seq<Event>, ceiling: int, m: Method)
    ensures var before, after := Run(s, es).shared, Run(s, es + [ChangeCeiling(ceiling)]).shared;
            if ceiling < MaxTimeout(before) then
              && Entry(after, m)
                 == (if m in before.table && before.table[m] <= ceiling then before.table[m] else ceiling)
              && (m in after.table <==> m in before.table)
              && MaxTimeout(after) == (if ceiling == 0 then before.conf * 10 else ceiling)
            else after == before
  {
    RunThen(s, es, ChangeCeiling(ceiling));
  }

  // ---- Doubling ----

  function Pow2(n: nat): nat {
    if n == 0 then 1 else 2 * Pow2(n - 1)
  }

  // Context c makes calls of m one at a time, each timing out, amid any traffic of other
  // contexts on other methods; `waiting` says that a call is under way.
  predicate Alternates(es: seq<Event>, c: ContextId, m: Method, waiting: bool) {
    if es == [] then !waiting
    else if es[0] == Start(c, m) then !waiting && Alternates(es[1..], c, m, true)
    else if es[0] == TimedOut(c, m) then waiting && Alternates(es[1..], c, m, false)
    else (es[0].Start? || es[0].TimedOut?) && es[0].ctx != c && es[0].m != m
         && Alternates(es[1..], c, m, waiting)
  }

  function Count(es: seq<Event>, e: Event): nat {
    if es == [] then 0 else (if es[0] == e then 1 else 0) + Count(es[1..], e)
  }

  // After n timeouts the timeout is the n-fold double of where it was, capped.
  lemma {:induction false} Doubles(s: System, es: seq<Event>, c: ContextId, m: Method, waiting: bool)
    requires Alternates(es, c, m, waiting)
    requires 0 <= Entry(s.shared, m) <= MaxTimeout(s.shared)
    requires waiting ==> c in s.contexts && s.contexts[c] == Entry(s.shared, m)
    ensures Entry(Run(s, es).shared, m)
            == MinOf(Entry(s.shared, m) * Pow2(Count(es, TimedOut(c, m))), MaxTimeout(s.shared))
    decreases |es|
  {
    if es != [] {
      var e, t := es[0], Do(s, es[0]);
      var d, cap, n := Entry(s.shared, m), MaxTimeout(s.shared), Count(es[1..], TimedOut(c, m));
      if e == TimedOut(c, m) {
        assert Entry(t.shared, m) == MinOf(d * 2, cap);
        Doubles(t, es[1..], c, m, false);
        DoubleTwice(d, n, cap);
      } else {
        Doubles(t, es[1..], c, m, e == Start(c, m) || waiting);
      }
    }
  }

  lemma DoubleTwice(d: int, n: nat, cap: int)
    requires 0 <= d <= cap
    ensures MinOf(MinOf(d * 2, cap) * Pow2(n), cap) == MinOf(d * Pow2(n + 1), cap)
  {
    Pow2Positive(n);
    assert d * Pow2(n + 1) == (d * 2) * Pow2(n);
    if d * 2 > cap {
      MulGrows(cap, Pow2(n));
      MulGrows(d * 2, Pow2(n));
    }
  }

  lemma {:induction false} Pow2Positive(n: nat)
    ensures Pow2(n) >= 1
  {
    if n > 0 {
      Pow2Positive(n - 1);
    }
  }

  lemma MulGrows(a: nat, b: nat)
    requires b >= 1
    ensures a * b >= a
  {
  }

  // Overlapping calls that all started on the same timeout do not compound: however many of
  // them time out, the timeout is doubled once.
  lemma {:induction false} BurstDoublesOnce(s: System, cs: seq<ContextId>, m: Method, timeout: int)
    requires cs != [] && forall c | c in cs :: c in s.contexts && s.contexts[c] == timeout
    requires 0 <= timeout <= MaxTimeout(s.shared)
    requires Entry(s.shared, m) == timeout || Entry(s.shared, m) == MinOf(timeout * 2, MaxTimeout(s.shared))
    ensures Entry(Run(s, seq(|cs|, i requires 0 <= i < |cs| => TimedOut(cs[i], m))).shared, m)
            == MinOf(timeout * 2, MaxTimeout(s.shared))
    decreases |cs|
  {
    var es := seq(|cs|, i requires 0 <= i < |cs| => TimedOut(cs[i], m));
    var t := Do(s, es[0]);
    assert cs[0] in cs;
    assert Entry(t.shared, m) == MinOf(timeout * 2, MaxTimeout(s.shared));
    if |cs| > 1 {
      BurstDoublesOnce(t, cs[1..], m, timeout);
      assert es[1..] == seq(|cs[1..]|, i requires 0 <= i < |cs[1..]| => TimedOut(cs[1..][i], m));
    } else {
      assert es[1..] == [];
    }
  }
}
