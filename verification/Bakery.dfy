/**
 The bakery lock of the instructor supplement, for any number of threads and any interleaving of single
 shared reads and writes (sequentially consistent memory, unbounded ticket numbers).

 Every shared access of the C text is a step of its own. In particular the scan for the maximum reads a
 ticket twice (`Scan`, then `Reread`), so the running maximum may drop, and the waiting loop reads a ticket
 up to three times per round (`TestZero`, `TestLess`, `TestEqual`). Reading one's own ticket beside it is not a
 step: nobody else writes it.
 */
module Bakery {

  /** Where a thread stands; `j` is the loop variable and `max` the local maximum. */
  datatype Pc =
    | Idle
    | Scan(j: nat, max: nat)
    | Reread(j: nat, max: nat)
    | ClearChoosing
    | AwaitChoosing(j: nat)
    | TestZero(j: nat)
    | TestLess(j: nat)
    | TestEqual(j: nat)
    | Inside
  {
    predicate InDoorway() { Scan? || Reread? }

    predicate Waiting() { AwaitChoosing? || TestZero? || TestLess? || TestEqual? }

    /** The thread has written its ticket and not yet given it back. */
    predicate Numbered() { ClearChoosing? || Waiting() || Inside? }

    /** The waiting loop is done with slot `a`. */
    predicate Passed(a: nat) { Inside? || (Waiting() && a < j) }

    /** In this visit the thread has read `choosing[a] == 0`. */
    predicate SawNotChoosing(a: nat) { Inside? || (Waiting() && (a < j || (a == j && !AwaitChoosing?))) }
  }

  datatype State = State(choosing: seq<int>, number: seq<nat>, pc: seq<Pc>)

  predicate Shape(s: State, n: nat) {
    && |s.choosing| == |s.number| == |s.pc| == n
    && forall t | 0 <= t < n :: PcInRange(s.pc[t], n)
  }

  predicate PcInRange(p: Pc, n: nat) {
    && (p.Scan? ==> p.j <= n)
    && (p.Reread? || p.Waiting() ==> p.j < n)
  }

  function Initial(n: nat): (s: State)
    ensures Shape(s, n)
  {
    State(seq(n, _ => 0), seq(n, _ => 0), seq(n, _ => Idle))
  }

  /** The waiting loop moves on to the next slot, or ends. */
  function NextSlot(j: nat, n: nat): Pc {
    if j + 1 < n then AwaitChoosing(j + 1) else Inside
  }

  /** One shared access by thread `t`; a thread that is Idle starts a visit, one that is Inside leaves. */
  function Step(s: State, n: nat, t: nat): (s': State)
    requires Shape(s, n) && t < n
    ensures Shape(s', n)
    ensures forall u | 0 <= u < n && u != t ::
              s'.choosing[u] == s.choosing[u] && s'.number[u] == s.number[u] && s'.pc[u] == s.pc[u]
  {
    match s.pc[t]
    case Idle => s.(choosing := s.choosing[t := 1], pc := s.pc[t := Scan(0, 0)])
    case Scan(j, max) =>
      if j == n then s.(number := s.number[t := max + 1], pc := s.pc[t := ClearChoosing])
      else if max < s.number[j] then s.(pc := s.pc[t := Reread(j, max)])
      else s.(pc := s.pc[t := Scan(j + 1, max)])
    case Reread(j, _) => s.(pc := s.pc[t := Scan(j + 1, s.number[j])])
    case ClearChoosing => s.(choosing := s.choosing[t := 0], pc := s.pc[t := AwaitChoosing(0)])
    case AwaitChoosing(j) => if s.choosing[j] != 0 then s else s.(pc := s.pc[t := TestZero(j)])
    case TestZero(j) => s.(pc := s.pc[t := if s.number[j] == 0 then NextSlot(j, n) else TestLess(j)])
    case TestLess(j) => s.(pc := s.pc[t := if s.number[j] < s.number[t] then TestZero(j) else TestEqual(j)])
    case TestEqual(j) =>
      s.(pc := s.pc[t := if s.number[j] == s.number[t] && j < t then TestZero(j) else NextSlot(j, n)])
    case Inside => s.(number := s.number[t := 0], pc := s.pc[t := Idle])
  }

  /** A run: the threads take their steps in the order `sched`, passing through `states`. */
  datatype Run = Run(sched: seq<nat>, states: seq<State>)

  ghost predicate IsRun(r: Run, n: nat) {
    && |r.states| == |r.sched| + 1 && r.states[0] == Initial(n)
    && (forall i | 0 <= i < |r.states| :: Shape(r.states[i], n))
    && (forall i | 0 <= i < |r.sched| :: r.sched[i] < n && r.states[i + 1] == Step(r.states[i], n, r.sched[i]))
  }

  // ----- The invariant -----------------------------------------------------------------------------

  /** For each thread, who already held a ticket when it last set `choosing`, and holds that ticket still. */
  type Elders = seq<set<nat>>

  function Holders(s: State, n: nat): set<nat>
    requires Shape(s, n)
  {
    set b: nat | b < n && s.pc[b].Numbered()
  }

  function StepElders(e: Elders, s: State, n: nat, t: nat): (e': Elders)
    requires Shape(s, n) && |e| == n && t < n
    ensures |e'| == n
  {
    match s.pc[t]
    case Idle => e[t := Holders(s, n)]
    case Inside => seq(n, a requires 0 <= a < n => if a == t then {} else e[a] - {t})
    case _ => e
  }

  ghost function EldersAt(r: Run, n: nat, i: nat): (e: Elders)
    requires IsRun(r, n) && i < |r.states|
    ensures |e| == n
  {
    if i == 0 then seq(n, _ => {}) else StepElders(EldersAt(r, n, i - 1), r.states[i - 1], n, r.sched[i - 1])
  }

  /** The order in which tickets are served. */
  predicate Ahead(s: State, b: nat, a: nat)
    requires b < |s.number| && a < |s.number|
  {
    s.number[b] < s.number[a] || (s.number[b] == s.number[a] && b < a)
  }

  predicate FlagsAgree(s: State, n: nat, a: nat)
    requires Shape(s, n) && a < n
  {
    && s.choosing[a] == (if s.pc[a].InDoorway() || s.pc[a].ClearChoosing? then 1 else 0)
    && (s.number[a] == 0 <==> !s.pc[a].Numbered())
  }

  /** What `b`, who is an elder of `a`, may rely on: `a` ends up with a larger ticket. The second conjunct
      covers the double read: the slot about to be read again still holds at least `b`'s ticket. */
  predicate ElderOk(s: State, n: nat, b: nat, a: nat)
    requires Shape(s, n) && a < n && b < n
  {
    && s.pc[b].Numbered() && !s.pc[a].Idle?
    && (s.pc[a].InDoorway() && b < s.pc[a].j ==> s.number[b] <= s.pc[a].max)
    && (s.pc[a].Reread? && b < s.pc[a].j ==> s.number[b] <= s.number[s.pc[a].j])
    && (s.pc[a].Numbered() ==> s.number[b] < s.number[a])
  }

  predicate PairOk(s: State, e: Elders, n: nat, b: nat, a: nat)
    requires Shape(s, n) && |e| == n && a < n && b < n
  {
    && (b in e[a] ==> ElderOk(s, n, b, a))
    && (s.pc[b].SawNotChoosing(a) && s.pc[a].InDoorway() ==> b in e[a])
    && (s.pc[b].Passed(a) && s.pc[a].Numbered() ==> Ahead(s, b, a))
    && (s.pc[b] == TestEqual(a) && s.pc[a].Numbered() ==> s.number[b] <= s.number[a])
  }

  predicate Inv(s: State, e: Elders, n: nat) {
    && Shape(s, n) && |e| == n
    && (forall a | 0 <= a < n :: FlagsAgree(s, n, a) && a !in e[a] && (forall b | b in e[a] :: b < n))
    && (forall a, b | 0 <= a < n && 0 <= b < n && a != b :: PairOk(s, e, n, b, a))
  }

  /** The step that makes the double read harmless: whoever leaves is ahead of every waiter, so a slot whose
      first read exceeded a running maximum that already covers an elder cannot be emptied before the second. */
  lemma LeaverIsNotReread(s: State, e: Elders, n: nat, t: nat, b: nat, a: nat)
    requires Inv(s, e, n) && t < n && a < n && b in e[a]
    requires s.pc[t].Inside? && b != t
    ensures !(s.pc[a].Reread? && s.pc[a].j == t && b < t)
  {
    assert PairOk(s, e, n, b, a) && PairOk(s, e, n, t, b);
  }

  lemma StepPair(s: State, e: Elders, n: nat, t: nat, b: nat, a: nat)
    requires Inv(s, e, n) && t < n && a < n && b < n && a != b
    ensures PairOk(Step(s, n, t), StepElders(e, s, n, t), n, b, a)
  {
    assert PairOk(s, e, n, b, a) && PairOk(s, e, n, a, b);
    assert FlagsAgree(s, n, a) && FlagsAgree(s, n, b) && FlagsAgree(s, n, t);
    if s.pc[t].Inside? && b in e[a] && b != t {
      LeaverIsNotReread(s, e, n, t, b, a);
    }
  }

  lemma StepKeepsInv(s: State, e: Elders, n: nat, t: nat)
    requires Inv(s, e, n) && t < n
    ensures Inv(Step(s, n, t), StepElders(e, s, n, t), n)
  {
    var s', e' := Step(s, n, t), StepElders(e, s, n, t);
    forall a | 0 <= a < n ensures FlagsAgree(s', n, a) && a !in e'[a] && (forall b | b in e'[a] :: b < n) {
      assert FlagsAgree(s, n, a) && FlagsAgree(s, n, t);
    }
    forall a, b | 0 <= a < n && 0 <= b < n && a != b ensures PairOk(s', e', n, b, a) {
      StepPair(s, e, n, t, b, a);
    }
  }

  lemma {:induction false} InvHolds(r: Run, n: nat, i: nat)
    requires IsRun(r, n) && i < |r.states|
    ensures Inv(r.states[i], EldersAt(r, n, i), n)
  {
    if i > 0 {
      InvHolds(r, n, i - 1);
      StepKeepsInv(r.states[i - 1], EldersAt(r, n, i - 1), n, r.sched[i - 1]);
    }
  }

  // ----- Main results ------------------------------------------------------------------------------

  /** No two threads are ever both between Enter's return and Leave. */
  lemma MutualExclusion(r: Run, n: nat, i: nat, a: nat, b: nat)
    requires IsRun(r, n) && i < |r.states| && a < n && b < n
    requires r.states[i].pc[a].Inside? && r.states[i].pc[b].Inside?
    ensures a == b
  {
    InvHolds(r, n, i);
    assert a != b ==> PairOk(r.states[i], EldersAt(r, n, i), n, a, b) && PairOk(r.states[i], EldersAt(r, n, i), n, b, a);
  }

  /** While `b` keeps the ticket it held when `a` set `choosing`, it stays an elder of `a`. */
  lemma {:induction false} ElderStays(r: Run, n: nat, i: nat, k: nat, b: nat, a: nat)
    requires IsRun(r, n) && i < k < |r.states| && a < n && b < n && a != b
    requires r.sched[i] == a && r.states[i].pc[a].Idle? && r.states[i].pc[b].Numbered()
    requires forall m | i < m <= k :: !r.states[m].pc[a].Idle?
    requires forall m | i <= m < k :: !(r.sched[m] == b && r.states[m].pc[b].Inside?)
    ensures b in EldersAt(r, n, k)[a]
    decreases k
  {
    assert r.states[k - 1 + 1] == Step(r.states[k - 1], n, r.sched[k - 1]);
    if k - 1 > i {
      ElderStays(r, n, i, k - 1, b, a);
    } else {
      assert b in Holders(r.states[i], n);
    }
  }

  /** First come, first served: if `b` had written its ticket when `a` set `choosing` (step `i`), and `a` is
      inside at `k` in that same visit, then `b` was inside, and left, in between. */
  lemma FirstComeFirstServed(r: Run, n: nat, i: nat, k: nat, b: nat, a: nat)
    requires IsRun(r, n) && i < k < |r.states| && a < n && b < n && a != b
    requires r.sched[i] == a && r.states[i].pc[a].Idle? && r.states[i].pc[b].Numbered()
    requires forall m | i < m <= k :: !r.states[m].pc[a].Idle?
    requires r.states[k].pc[a].Inside?
    ensures exists m | i <= m < k :: r.sched[m] == b && r.states[m].pc[b].Inside?
  {
    InvHolds(r, n, k);
    var s, e := r.states[k], EldersAt(r, n, k);
    assert PairOk(s, e, n, b, a) && PairOk(s, e, n, a, b);
    if forall m | i <= m < k :: !(r.sched[m] == b && r.states[m].pc[b].Inside?) {
      ElderStays(r, n, i, k, b, a);
    }
  }

  // ----- Progress ----------------------------------------------------------------------------------

  predicate Schedule(sched: seq<nat>, n: nat) {
    forall i | 0 <= i < |sched| :: sched[i] < n
  }

  /** The threads in `sched` take their steps from `s` on. */
  function After(s: State, n: nat, sched: seq<nat>): (s': State)
    requires Shape(s, n) && Schedule(sched, n)
    ensures Shape(s', n)
    decreases |sched|
  {
    if sched == [] then s else After(Step(s, n, sched[0]), n, sched[1..])
  }

  lemma {:induction false} AfterConcat(s: State, n: nat, first: seq<nat>, rest: seq<nat>)
    requires Shape(s, n) && Schedule(first, n) && Schedule(rest, n)
    ensures After(s, n, first + rest) == After(After(s, n, first), n, rest)
    decreases |first|
  {
    if first == [] {
      assert first + rest == rest;
    } else {
      assert (first + rest)[0] == first[0] && (first + rest)[1..] == first[1..] + rest;
      AfterConcat(Step(s, n, first[0]), n, first[1..], rest);
    }
  }

  lemma AfterFirst(s: State, n: nat, t: nat, rest: seq<nat>)
    requires Shape(s, n) && t < n && Schedule(rest, n)
    ensures After(s, n, [t] + rest) == After(Step(s, n, t), n, rest)
  {
    assert ([t] + rest)[1..] == rest;
  }

  ghost predicate Good(s: State, n: nat) {
    exists e :: Inv(s, e, n)
  }

  lemma {:induction false} AfterIsGood(s: State, n: nat, sched: seq<nat>)
    requires Good(s, n) && Schedule(sched, n)
    ensures Good(After(s, n, sched), n)
    decreases |sched|
  {
    if sched != [] {
      var e :| Inv(s, e, n);
      StepKeepsInv(s, e, n, sched[0]);
      AfterIsGood(Step(s, n, sched[0]), n, sched[1..]);
    }
  }

  /** The guard of neither waiting loop holds `w` back at any slot. */
  predicate Unblocked(s: State, n: nat, w: nat)
    requires Shape(s, n) && w < n
  {
    forall j | 0 <= j < n :: s.choosing[j] == 0 && (s.number[j] == 0 || j == w || Ahead(s, w, j))
  }

  /** How many steps the waiting loop has left at most, five to a slot. */
  function WaitRank(s: State, n: nat, w: nat): int
    requires Shape(s, n) && w < n
  {
    match s.pc[w]
    case AwaitChoosing(j) => 5 * (n - j)
    case TestLess(j) => 5 * (n - j) - (if s.number[j] == 0 then 1 else 3)
    case TestZero(j) => 5 * (n - j) - 2
    case TestEqual(j) => 5 * (n - j) - 4
    case _ => 0
  }

  /** A waiter that is not held back walks through on its own steps alone. */
  lemma {:induction false} UnblockedEnters(s: State, n: nat, w: nat) returns (own: seq<nat>)
    requires Shape(s, n) && w < n && s.number[w] > 0
    requires s.pc[w].Waiting() || s.pc[w].Inside?
    requires Unblocked(s, n, w)
    ensures forall i | 0 <= i < |own| :: own[i] == w
    ensures After(s, n, own).pc[w].Inside?
    decreases WaitRank(s, n, w)
  {
    if s.pc[w].Inside? {
      return [];
    }
    var rest := UnblockedEnters(Step(s, n, w), n, w);
    AfterFirst(s, n, w, rest);
    own := [w] + rest;
  }

  /** The waiter with the least (ticket, id) is blocked by nobody: whenever no thread is inside or choosing,
      it gets in on its own steps. */
  lemma LeastWaiterEnters(s: State, n: nat, w: nat) returns (own: seq<nat>)
    requires Good(s, n) && w < n && s.pc[w].Waiting()
    requires forall t | 0 <= t < n :: !s.pc[t].Inside? && s.choosing[t] == 0
    requires forall t | 0 <= t < n && t != w && s.pc[t].Waiting() :: Ahead(s, w, t)
    ensures forall i | 0 <= i < |own| :: own[i] == w
    ensures After(s, n, own).pc[w].Inside?
  {
    var e :| Inv(s, e, n);
    assert FlagsAgree(s, n, w);
    forall j | 0 <= j < n ensures s.number[j] == 0 || j == w || Ahead(s, w, j) {
      assert FlagsAgree(s, n, j);
    }
    own := UnblockedEnters(s, n, w);
  }

  lemma LeastOf(s: State, n: nat, ws: set<nat>) returns (w: nat)
    requires Shape(s, n) && ws != {} && forall x | x in ws :: x < n
    ensures w in ws && forall x | x in ws && x != w :: Ahead(s, w, x)
    decreases |ws|
  {
    var v :| v in ws;
    var others := ws - {v};
    if others == {} {
      assert ws == {v};
      return v;
    }
    w := LeastOf(s, n, others);
    if Ahead(s, v, w) { w := v; }
    assert forall x | x in ws && x != v :: x in others;
  }

  /** A thread in its doorway finishes it alone: the scan has no loop that waits. */
  lemma {:induction false} DoorwayEnds(s: State, n: nat, t: nat) returns (own: seq<nat>)
    requires Shape(s, n) && t < n && (s.pc[t].InDoorway() || s.pc[t].ClearChoosing?)
    ensures forall i | 0 <= i < |own| :: own[i] == t
    ensures After(s, n, own).pc[t] == AwaitChoosing(0)
    ensures forall u | 0 <= u < n && u != t :: After(s, n, own).pc[u] == s.pc[u]
    decreases if s.pc[t].Scan? then 2 * (n - s.pc[t].j) + 2
              else if s.pc[t].Reread? then 2 * (n - s.pc[t].j) + 1 else 1
  {
    var rest := [];
    if !s.pc[t].ClearChoosing? {
      rest := DoorwayEnds(Step(s, n, t), n, t);
    }
    AfterFirst(s, n, t, rest);
    own := [t] + rest;
  }

  function Choosers(s: State, n: nat): set<nat>
    requires Shape(s, n)
  {
    set t: nat | t < n && (s.pc[t].InDoorway() || s.pc[t].ClearChoosing?)
  }

  lemma SomeWaiterEnters(s: State, n: nat, t: nat) returns (more: seq<nat>, w: nat)
    requires Good(s, n) && t < n && !s.pc[t].Idle? && Choosers(s, n) == {}
    requires forall u | 0 <= u < n :: !s.pc[u].Inside?
    ensures w < n && Schedule(more, n) && After(s, n, more).pc[w].Inside?
  {
    var e :| Inv(s, e, n);
    forall u | 0 <= u < n ensures s.choosing[u] == 0 && (s.pc[u].Idle? || s.pc[u].Waiting()) {
      assert FlagsAgree(s, n, u);
      assert u !in Choosers(s, n);
    }
    assert t in Holders(s, n);
    w := LeastOf(s, n, Holders(s, n));
    forall u | 0 <= u < n && u != w && s.pc[u].Waiting() ensures Ahead(s, w, u) {
      assert u in Holders(s, n);
    }
    more := LeastWaiterEnters(s, n, w);
  }

  /** No deadlock: from every state of every run (`InvHolds` shows it `Good`) in which some thread is trying
      to enter, the run can be continued so that one is inside. */
  lemma {:induction false} NoDeadlock(s: State, n: nat, t: nat) returns (more: seq<nat>, w: nat)
    requires Good(s, n) && t < n && !s.pc[t].Idle?
    ensures w < n && Schedule(more, n) && After(s, n, more).pc[w].Inside?
    decreases |Choosers(s, n)|
  {
    if u: nat :| u < n && s.pc[u].Inside? {
      return [], u;
    } else if u :| u in Choosers(s, n) {
      var first := DoorwayEnds(s, n, u);
      AfterIsGood(s, n, first);
      var s' := After(s, n, first);
      assert Choosers(s', n) == Choosers(s, n) - {u};
      var rest;
      rest, w := NoDeadlock(s', n, t);
      AfterConcat(s, n, first, rest);
      more := first + rest;
    } else {
      more, w := SomeWaiterEnters(s, n, t);
    }
  }
}
