/**
 What the unlocked ID test of the endpoint calls is worth: exactly when the locked part of a
 destroy, send or receive acts on the endpoint that its ID named, and continuations in which
 it does not.
 */
module EndpointRaces {
  import opened Modular
  import opened EndpointIds

  // ---------------------------------------------------------------------------
  // Counting
  // ---------------------------------------------------------------------------

  predicate On(s: State, mv: Move, idx: nat) {
    mv.th in s.pend && s.pend[mv.th].idx == idx
  }

  predicate FillsAt(s: State, mv: Move, idx: nat) {
    mv.CreateFill? && On(s, mv, idx)
  }

  predicate WipesAt(s: State, mv: Move, idx: nat) {
    mv.DestroyWipe? && On(s, mv, idx)
  }

  /** How often slot idx was filled in steps i to j - 1. */
  function Fills(ss: seq<State>, mvs: seq<Move>, idx: nat, i: nat, j: nat): nat
    requires i <= j <= |mvs| < |ss|
    decreases j
  {
    if i == j then 0 else Fills(ss, mvs, idx, i, j - 1) + if FillsAt(ss[j - 1], mvs[j - 1], idx) then 1 else 0
  }

  /** How often it was wiped. */
  function Wipes(ss: seq<State>, mvs: seq<Move>, idx: nat, i: nat, j: nat): nat
    requires i <= j <= |mvs| < |ss|
    decreases j
  {
    if i == j then 0 else Wipes(ss, mvs, idx, i, j - 1) + if WipesAt(ss[j - 1], mvs[j - 1], idx) then 1 else 0
  }

  function Bumps(ss: seq<State>, mvs: seq<Move>, idx: nat, i: nat, j: nat): nat
    requires i <= j <= |mvs| < |ss|
  {
    Fills(ss, mvs, idx, i, j) + Wipes(ss, mvs, idx, i, j)
  }

  /** The generation of a slot counts its fills and wipes, m of them, and a slot that is in
      use, or that a test found in use, has been filled. */
  ghost predicate Counted(s: State, idx: nat, m: nat)
    requires idx < |s.table.slots|
  {
    && s.table.slots[idx].generation == GenerationAfter(m)
    && (s.table.slots[idx].live ==> m > 0)
    && (forall th: nat :: th in s.pend && s.pend[th].idx == idx && !Holding(s.pend[th]) ==> m > 0)
  }

  lemma CountedStep(s: State, mv: Move, idx: nat, m: nat)
    requires Bounded(s) && Enabled(s, mv) && idx < |s.table.slots| && Counted(s, idx, m)
    ensures |Next(s, mv).table.slots| == |s.table.slots|
    ensures Counted(Next(s, mv), idx, if FillsAt(s, mv, idx) || WipesAt(s, mv, idx) then m + 1 else m)
  {
    BumpIsNext(m);
  }

  lemma {:induction false} CountedInEveryRun(n: nat, ss: seq<State>, mvs: seq<Move>, k: nat, idx: nat)
    returns (m: nat)
    requires Run(n, ss, mvs) && k <= |mvs| && idx < n
    ensures |ss[k].table.slots| == n && Counted(ss[k], idx, m)
    decreases k
  {
    m := 0;
    if k > 0 {
      m := CountedInEveryRun(n, ss, mvs, k - 1, idx);
      CountedStep(ss[k - 1], mvs[k - 1], idx, m);
      if FillsAt(ss[k - 1], mvs[k - 1], idx) || WipesAt(ss[k - 1], mvs[k - 1], idx) {
        m := m + 1;
      }
    }
  }

  lemma {:induction false} CountedFrom(n: nat, ss: seq<State>, mvs: seq<Move>, i: nat, j: nat, idx: nat, m: nat)
    requires Run(n, ss, mvs) && i <= j <= |mvs| && idx < n == |ss[i].table.slots| && Counted(ss[i], idx, m)
    ensures |ss[j].table.slots| == n && Counted(ss[j], idx, m + Bumps(ss, mvs, idx, i, j))
    decreases j
  {
    if i < j {
      CountedFrom(n, ss, mvs, i, j - 1, idx, m);
      CountedStep(ss[j - 1], mvs[j - 1], idx, m + Bumps(ss, mvs, idx, i, j - 1));
    }
  }

  lemma SameGeneration(a: nat, b: nat)
    requires 0 < a <= b
    ensures GenerationAfter(a) == GenerationAfter(b) <==> (b - a) % CYCLE == 0
  {
    SameResidue(a - 1, b - 1, CYCLE);
  }

  // ---------------------------------------------------------------------------
  // Acting on the endpoint named
  // ---------------------------------------------------------------------------

  predicate Tests(mv: Move, th: nat, id: nat) {
    mv == DestroyTest(th, id) || mv == CallTest(th, id)
  }

  /** At step i a thread passes the test with an ID, and at step j it does the locked part. */
  ghost predicate Admitted(ss: seq<State>, mvs: seq<Move>, i: nat, j: nat, th: nat, id: nat, idx: nat) {
    && i < j < |mvs| < |ss|
    && Tests(mvs[i], th, id) && Resolve(ss[i].table, id) == Some(idx)
    && Acts(mvs[j]) && mvs[j].th == th
    && forall k: nat :: i < k < j ==> mvs[k].th != th
  }

  lemma {:induction false} StaysAdmitted(n: nat, ss: seq<State>, mvs: seq<Move>, i: nat, j: nat,
                                         th: nat, id: nat, idx: nat, k: nat)
    requires Run(n, ss, mvs) && Admitted(ss, mvs, i, j, th, id, idx) && i < k <= j
    ensures th in ss[k].pend && !Holding(ss[k].pend[th]) && ss[k].pend[th].idx == idx && ss[k].pend[th].id == id
    decreases k
  {
    if k > i + 1 {
      StaysAdmitted(n, ss, mvs, i, j, th, id, idx, k - 1);
    }
  }

  /** The locked part acts on the slot whose endpoint passed the test. */
  ghost predicate ActsOnNamed(ss: seq<State>, j: nat, id: nat, idx: nat)
    requires j < |ss|
  {
    Resolve(ss[j].table, id) == Some(idx)
  }

  /** In every run whatsoever, the endpoint on which a destroy, send or receive acts is the one
      its ID names if and only if the slot is in use and was filled and wiped a multiple of
      65535 times in between, so not at all or that often. */
  lemma NamedIff(n: nat, ss: seq<State>, mvs: seq<Move>, i: nat, j: nat, th: nat, id: nat, idx: nat)
    requires Run(n, ss, mvs) && Admitted(ss, mvs, i, j, th, id, idx)
    ensures idx < n == |ss[j].table.slots| && On(ss[j], mvs[j], idx)
    ensures ActsOnNamed(ss, j, id, idx) <==>
            ss[j].table.slots[idx].live && Bumps(ss, mvs, idx, i, j) % CYCLE == 0
  {
    SlotsInRun(n, ss, mvs, i);
    SlotsInRun(n, ss, mvs, j);
    StaysAdmitted(n, ss, mvs, i, j, th, id, idx, j);
    ResolvesAgain(ss[i].table, ss[j].table, id, idx);
    GenerationIff(n, ss, mvs, i, j, idx);
  }

  /** The generation of a slot in use comes back exactly after a multiple of 65535 steps. */
  lemma GenerationIff(n: nat, ss: seq<State>, mvs: seq<Move>, i: nat, j: nat, idx: nat)
    requires Run(n, ss, mvs) && i <= j <= |mvs| && idx < n == |ss[i].table.slots| == |ss[j].table.slots|
    requires ss[i].table.slots[idx].live
    ensures ss[j].table.slots[idx].generation == ss[i].table.slots[idx].generation <==>
            Bumps(ss, mvs, idx, i, j) % CYCLE == 0
  {
    var m := CountedInEveryRun(n, ss, mvs, i, idx);
    CountedFrom(n, ss, mvs, i, j, idx, m);
    var d := Bumps(ss, mvs, idx, i, j);
    assert (m + d) - m == d;
    SameGeneration(m, m + d);
  }

  lemma ResolvesAgain(t: Table, t': Table, id: nat, idx: nat)
    requires Resolve(t, id) == Some(idx) && |t'.slots| == |t.slots|
    ensures Resolve(t', id) == Some(idx) <==> t'.slots[idx].live && t'.slots[idx].generation == t.slots[idx].generation
  {
  }

  lemma {:induction false} SlotsInRun(n: nat, ss: seq<State>, mvs: seq<Move>, k: nat)
    requires Run(n, ss, mvs) && k <= |mvs|
    ensures |ss[k].table.slots| == n
  {
    if k > 0 {
      SlotsInRun(n, ss, mvs, k - 1);
    }
  }

  ghost predicate AllFindLive(ss: seq<State>, mvs: seq<Move>)
    requires |ss| == |mvs| + 1
  {
    forall k: nat :: k < |mvs| ==> Enabled(ss[k], mvs[k]) && FindsLive(ss[k], mvs[k])
  }

  function Bit(b: bool): int {
    if b then 1 else 0
  }

  /** A step that finds its slot live fills only slots that are not in use and wipes only
      slots that are. */
  lemma LiveStep(s: State, l: Log, mv: Move, idx: nat)
    requires Inv(s, l) && Enabled(s, mv) && FindsLive(s, mv) && idx < |s.table.slots|
    ensures
      && |Next(s, mv).table.slots| == |s.table.slots|
      && Bit(Next(s, mv).table.slots[idx].live) ==
         Bit(s.table.slots[idx].live) + Bit(FillsAt(s, mv, idx)) - Bit(WipesAt(s, mv, idx))
  {
    assert PlaceOk(s, l, idx);
  }

  lemma {:induction false} FillsBalanceWipes(n: nat, ss: seq<State>, mvs: seq<Move>, idx: nat, i: nat, j: nat)
    requires Run(n, ss, mvs) && AllFindLive(ss, mvs) && i <= j <= |mvs| && idx < n
    ensures |ss[i].table.slots| == |ss[j].table.slots| == n
    ensures Fills(ss, mvs, idx, i, j) - Wipes(ss, mvs, idx, i, j) ==
            Bit(ss[j].table.slots[idx].live) - Bit(ss[i].table.slots[idx].live)
    decreases j
  {
    SlotsInRun(n, ss, mvs, i);
    SlotsInRun(n, ss, mvs, j);
    if i < j {
      FillsBalanceWipes(n, ss, mvs, idx, i, j - 1);
      var l := IdsInEveryRun(n, ss, mvs, j - 1);
      LiveStep(ss[j - 1], l, mvs[j - 1], idx);
    }
  }

  /** In every run in which locked parts find their slots in use: the endpoint acted on is the
      one named if and only if the slot was wiped a multiple of 65535 times in between. */
  lemma NamedIffNotWiped(n: nat, ss: seq<State>, mvs: seq<Move>, i: nat, j: nat, th: nat, id: nat, idx: nat)
    requires Run(n, ss, mvs) && AllFindLive(ss, mvs) && Admitted(ss, mvs, i, j, th, id, idx)
    ensures ActsOnNamed(ss, j, id, idx) <==> Wipes(ss, mvs, idx, i, j) % CYCLE == 0
    ensures Wipes(ss, mvs, idx, i, j) < CYCLE ==>
              (ActsOnNamed(ss, j, id, idx) <==> Wipes(ss, mvs, idx, i, j) == 0)
  {
    NamedIff(n, ss, mvs, i, j, th, id, idx);
    assert FindsLive(ss[j], mvs[j]);
    FillsBalanceWipes(n, ss, mvs, idx, i, j);
    var w := Wipes(ss, mvs, idx, i, j);
    assert Bumps(ss, mvs, idx, i, j) == 2 * w;
    TwiceInjective(w);
    if w < CYCLE {
      ModUnique(w, CYCLE, 0, w);
    }
  }

  // ---------------------------------------------------------------------------
  // Retiring the endpoint named and no other
  // ---------------------------------------------------------------------------

  ghost predicate SameFor(t: Table, t': Table, id: nat) {
    Resolve(t', id) == Resolve(t, id)
  }

  /** Every other ID is accepted, or not, as before. */
  ghost predicate Spares(t: Table, t': Table, id: nat) {
    forall other: nat {:trigger SameFor(t, t', other)} :: other < HALF * HALF && other != id ==> SameFor(t, t', other)
  }

  lemma WipeSparesIff(s: State, l: Log, id: nat, idx: nat)
    requires Inv(s, l) && id < HALF * HALF && idx < |s.table.slots| && s.table.slots[idx].live
    ensures Resolve(Wiped(s.table, idx), id) != Some(idx)
    ensures Spares(s.table, Wiped(s.table, idx), id) <==> Resolve(s.table, id) == Some(idx)
  {
    var t, t' := s.table, Wiped(s.table, idx);
    ResolveExact(t, l.bumps, id, idx);
    if Resolve(t, id) == Some(idx) {
      forall other: nat | other < HALF * HALF && other != id ensures SameFor(t, t', other) {
        ResolveExact(t, l.bumps, other, idx);
      }
    } else {
      assert SlotOk(t, idx, l.bumps[idx]);
      BumpIsNext(l.bumps[idx]);
      var current := t.slots[idx].id;
      IdParts(t.slots[idx].generation, idx);
      ResolveExact(t, l.bumps, current, idx);
      assert !SameFor(t, t', current);
    }
  }

  /** In every such run a destroy leaves all other IDs alone if and only if the slot was wiped
      a multiple of 65535 times between its test and its lock. */
  lemma DestroySparesIff(n: nat, ss: seq<State>, mvs: seq<Move>, i: nat, j: nat, th: nat, id: nat, idx: nat)
    requires Run(n, ss, mvs) && AllFindLive(ss, mvs) && Admitted(ss, mvs, i, j, th, id, idx)
    requires mvs[j].DestroyWipe? && id < HALF * HALF
    ensures Spares(ss[j].table, ss[j + 1].table, id) <==> Wipes(ss, mvs, idx, i, j) % CYCLE == 0
  {
    NamedIffNotWiped(n, ss, mvs, i, j, th, id, idx);
    NamedIff(n, ss, mvs, i, j, th, id, idx);
    var l := IdsInEveryRun(n, ss, mvs, j);
    assert FindsLive(ss[j], mvs[j]);
    WipeSparesIff(ss[j], l, id, idx);
  }

  // ---------------------------------------------------------------------------
  // Continuations that go wrong
  // ---------------------------------------------------------------------------

  ghost predicate Steps(ss: seq<State>, mvs: seq<Move>) {
    && |ss| == |mvs| + 1
    && forall k: nat :: k < |mvs| ==> Bounded(ss[k]) && Enabled(ss[k], mvs[k]) && ss[k + 1] == Next(ss[k], mvs[k])
  }

  lemma Join(ss: seq<State>, mvs: seq<Move>, ts: seq<State>, nvs: seq<Move>)
    requires Steps(ss, mvs) && Steps(ts, nvs) && ss[|mvs|] == ts[0]
    ensures Steps(ss + ts[1..], mvs + nvs) && (ss + ts[1..])[|mvs + nvs|] == ts[|nvs|]
  {
    var us, ovs := ss + ts[1..], mvs + nvs;
    forall k: nat | k < |ovs| ensures Bounded(us[k]) && Enabled(us[k], ovs[k]) && us[k + 1] == Next(us[k], ovs[k]) {
      if k >= |mvs| {
        assert ovs[k] == nvs[k - |mvs|] && us[k] == ts[k - |mvs|];
      }
    }
  }

  lemma Pair(s: State, m: Move, m': Move) returns (ss: seq<State>)
    requires Bounded(s) && Enabled(s, m) && Enabled(Next(s, m), m')
    ensures Steps(ss, [m, m']) && ss == [s, Next(s, m), Next(Next(s, m), m')]
  {
    ss := [s, Next(s, m), Next(Next(s, m), m')];
  }

  lemma BothTest(s: State, id: nat, idx: nat, a: nat, b: nat)
    requires Bounded(s) && Resolve(s.table, id) == Some(idx) && a != b && a !in s.pend && b !in s.pend
    ensures Enabled(Next(s, DestroyTest(a, id)), DestroyTest(b, id))
    ensures Next(Next(s, DestroyTest(a, id)), DestroyTest(b, id)) ==
            s.(pend := s.pend[a := Destroying(idx, id)][b := Destroying(idx, id)])
  {
  }

  lemma BothWipe(s: State, id: nat, idx: nat, a: nat, b: nat)
    requires Bounded(s) && a != b && a in s.pend && b in s.pend && s.pend[a] == s.pend[b] == Destroying(idx, id)
    ensures Enabled(Next(s, DestroyWipe(a)), DestroyWipe(b))
    ensures
      var s' := Next(Next(s, DestroyWipe(a)), DestroyWipe(b));
      s'.table.free == s.table.free && s'.pend == s.pend[a := Returning(idx)][b := Returning(idx)]
  {
  }

  lemma BothPush(s: State, idx: nat, a: nat, b: nat)
    requires Bounded(s) && a != b && a in s.pend && b in s.pend && s.pend[a] == s.pend[b] == Returning(idx)
    ensures Enabled(Next(s, DestroyPush(a)), DestroyPush(b))
    ensures Next(Next(s, DestroyPush(a)), DestroyPush(b)) ==
            State(s.table.(free := s.table.free + [idx] + [idx]), s.pend - {a} - {b})
  {
  }

  lemma BothPop(s: State, free: seq<nat>, idx: nat, a: nat, b: nat)
    requires Bounded(s) && a != b && a !in s.pend && b !in s.pend && s.table.free == free + [idx] + [idx]
    ensures Enabled(Next(s, CreatePop(a)), CreatePop(b))
    ensures Next(Next(s, CreatePop(a)), CreatePop(b)).pend == s.pend[a := Taken(idx)][b := Taken(idx)]
  {
    assert (free + [idx] + [idx])[..|free| + 1] == free + [idx];
  }

  /** Whenever an endpoint is live, two threads that destroy it at once can both pass the
      test; its index is then on the stack twice, and two creations get the same slot. */
  lemma DestroyedTwice(s: State, id: nat, idx: nat, a: nat, b: nat) returns (ss: seq<State>, mvs: seq<Move>)
    requires Bounded(s) && Resolve(s.table, id) == Some(idx) && a != b && a !in s.pend && b !in s.pend
    ensures Steps(ss, mvs) && ss[0] == s
    ensures exists k: nat :: k < |ss| && ss[k].table.free == s.table.free + [idx] + [idx]
    ensures var last := ss[|mvs|].pend; a in last && b in last && last[a] == Taken(idx) == last[b]
  {
    BothTest(s, id, idx, a, b);
    var tested := Pair(s, DestroyTest(a, id), DestroyTest(b, id));
    BothWipe(tested[2], id, idx, a, b);
    var wiped := Pair(tested[2], DestroyWipe(a), DestroyWipe(b));
    BothPush(wiped[2], idx, a, b);
    var pushed := Pair(wiped[2], DestroyPush(a), DestroyPush(b));
    BothPop(pushed[2], s.table.free, idx, a, b);
    var popped := Pair(pushed[2], CreatePop(a), CreatePop(b));
    ss, mvs := JoinFour(tested, wiped, pushed, popped, [DestroyTest(a, id), DestroyTest(b, id)],
                        [DestroyWipe(a), DestroyWipe(b)], [DestroyPush(a), DestroyPush(b)],
                        [CreatePop(a), CreatePop(b)]);
    assert ss[6].table.free == s.table.free + [idx] + [idx];
  }

  lemma JoinFour(s1: seq<State>, s2: seq<State>, s3: seq<State>, s4: seq<State>,
                 m1: seq<Move>, m2: seq<Move>, m3: seq<Move>, m4: seq<Move>)
    returns (ss: seq<State>, mvs: seq<Move>)
    requires Steps(s1, m1) && Steps(s2, m2) && Steps(s3, m3) && Steps(s4, m4)
    requires |m1| == |m2| == |m3| == 2
    requires s1[2] == s2[0] && s2[2] == s3[0] && s3[2] == s4[0]
    ensures Steps(ss, mvs) && ss[0] == s1[0] && |mvs| == 6 + |m4| && mvs == m1 + m2 + m3 + m4
    ensures ss[6] == s3[2] && ss[|mvs|] == s4[|m4|]
  {
    Join(s1, m1, s2, m2);
    var s12, m12 := s1 + s2[1..], m1 + m2;
    Join(s12, m12, s3, m3);
    var s123, m123 := s12 + s3[1..], m12 + m3;
    Join(s123, m123, s4, m4);
    ss, mvs := s123 + s4[1..], m123 + m4;
    assert ss[6] == s123[6] == s3[2];
  }

  lemma TwoBumps(g: nat)
    requires g < HALF
    ensures var h := BumpGeneration(BumpGeneration(g)); h < HALF && h != g && 0 < h
  {
  }

  /** b destroys an endpoint and creates a new one on the same slot. */
  lemma Recreated(s: State, id: nat, idx: nat, b: nat)
    requires Bounded(s) && b in s.pend && s.pend[b] == Destroying(idx, id)
    ensures Enabled(Next(s, DestroyWipe(b)), DestroyPush(b))
    ensures
      var s' := Next(Next(s, DestroyWipe(b)), DestroyPush(b));
      && Enabled(s', CreatePop(b)) && Enabled(Next(s', CreatePop(b)), CreateFill(b))
      && var s'' := Next(Next(s', CreatePop(b)), CreateFill(b));
      && s''.pend == s.pend - {b} && |s''.table.slots| == |s.table.slots|
      && var g := BumpGeneration(BumpGeneration(s.table.slots[idx].generation));
      && s''.table.slots[idx] == Slot(g, MakeId(g, idx), true)
  {
    var s1 := Next(s, DestroyWipe(b));
    var s2 := Next(s1, DestroyPush(b));
    assert s2.table.free == s.table.free + [idx] && s2.pend == s.pend - {b};
    var s3 := Next(s2, CreatePop(b));
    assert s3.pend[b] == Taken(idx);
  }

  /** b destroys the endpoint that it has tested and creates a new one on the slot. */
  lemma Replaced(s: State, id: nat, idx: nat, a: nat, b: nat) returns (ss: seq<State>, mvs: seq<Move>)
    requires Bounded(s) && a != b && b in s.pend && s.pend[b] == Destroying(idx, id) && a in s.pend
    ensures Steps(ss, mvs) && ss[0] == s && mvs == [DestroyWipe(b), DestroyPush(b), CreatePop(b), CreateFill(b)]
    ensures Bounded(ss[4]) && a in ss[4].pend && ss[4].pend[a] == s.pend[a] && |ss[4].table.slots| == |s.table.slots|
    ensures var g := BumpGeneration(BumpGeneration(s.table.slots[idx].generation));
            ss[4].table.slots[idx] == Slot(g, MakeId(g, idx), true)
  {
    Recreated(s, id, idx, b);
    var gone := Pair(s, DestroyWipe(b), DestroyPush(b));
    var made := Pair(gone[2], CreatePop(b), CreateFill(b));
    Join(gone, [DestroyWipe(b), DestroyPush(b)], made, [CreatePop(b), CreateFill(b)]);
    ss, mvs := gone + made[1..], [DestroyWipe(b), DestroyPush(b)] + [CreatePop(b), CreateFill(b)];
  }

  /** a passes its test, b replaces the endpoint, and a acts. */
  lemma Overtaken(s: State, id: nat, idx: nat, a: nat, b: nat, destroy: bool)
    returns (ss: seq<State>, mvs: seq<Move>)
    requires Bounded(s) && Resolve(s.table, id) == Some(idx) && a != b && a !in s.pend && b !in s.pend
    ensures Steps(ss, mvs) && ss[0] == s
    ensures mvs == [if destroy then DestroyTest(a, id) else CallTest(a, id), DestroyTest(b, id)]
                   + [DestroyWipe(b), DestroyPush(b), CreatePop(b), CreateFill(b)]
                   + [if destroy then DestroyWipe(a) else CallEnter(a)]
    ensures |ss[6].table.slots| == |s.table.slots| && FindsLive(ss[6], mvs[6])
    ensures ss[7].table == if destroy then Wiped(ss[6].table, idx) else Entered(ss[6].table, idx)
    ensures var g := BumpGeneration(BumpGeneration(s.table.slots[idx].generation));
            ss[6].table.slots[idx] == Slot(g, MakeId(g, idx), true)
  {
    var test := if destroy then DestroyTest(a, id) else CallTest(a, id);
    var act := if destroy then DestroyWipe(a) else CallEnter(a);
    TestThen(s, id, idx, a, b, destroy);
    var tested := Pair(s, test, DestroyTest(b, id));
    var made, making := Replaced(tested[2], id, idx, a, b);
    var last := [made[4], Next(made[4], act)];
    Join(tested, [test, DestroyTest(b, id)], made, making);
    var first, moves := tested + made[1..], [test, DestroyTest(b, id)] + making;
    Join(first, moves, last, [act]);
    ss, mvs := first + last[1..], moves + [act];
    assert ss[6] == first[6] == made[4];
  }

  lemma TestThen(s: State, id: nat, idx: nat, a: nat, b: nat, destroy: bool)
    requires Bounded(s) && Resolve(s.table, id) == Some(idx) && a != b && a !in s.pend && b !in s.pend
    ensures
      var test := if destroy then DestroyTest(a, id) else CallTest(a, id);
      && Enabled(Next(s, test), DestroyTest(b, id))
      && Next(Next(s, test), DestroyTest(b, id)) ==
         s.(pend := s.pend[a := if destroy then Destroying(idx, id) else Calling(idx, id)][b := Destroying(idx, id)])
  {
  }

  /** Whenever an endpoint is live, a destruction that is overtaken by another one and by a
      new creation wipes the new endpoint, whose ID nobody asked to destroy. */
  lemma WrongOneDestroyed(s: State, id: nat, idx: nat, a: nat, b: nat)
    returns (ss: seq<State>, mvs: seq<Move>, newId: nat)
    requires Bounded(s) && Resolve(s.table, id) == Some(idx) && a != b && a !in s.pend && b !in s.pend
    requires |s.table.slots| <= HALF && s.table.slots[idx].generation < HALF
    ensures Steps(ss, mvs) && |mvs| == 7 && ss[0] == s && mvs[6] == DestroyWipe(a) && FindsLive(ss[6], mvs[6])
    ensures forall k: nat :: k < |mvs| && mvs[k].DestroyTest? ==> mvs[k].id == id
    ensures newId != id && Resolve(ss[6].table, newId) == Some(idx) && Resolve(ss[7].table, newId) == None
  {
    ss, mvs := Overtaken(s, id, idx, a, b, true);
    newId := FreshResolves(s.table, ss[6].table, id, idx);
  }

  /** In the same way a send or receive enters an endpoint that its caller did not name. */
  lemma WrongOneEntered(s: State, id: nat, idx: nat, a: nat, b: nat)
    returns (ss: seq<State>, mvs: seq<Move>, newId: nat)
    requires Bounded(s) && Resolve(s.table, id) == Some(idx) && a != b && a !in s.pend && b !in s.pend
    requires |s.table.slots| <= HALF && s.table.slots[idx].generation < HALF
    ensures Steps(ss, mvs) && |mvs| == 7 && ss[0] == s && mvs[0] == CallTest(a, id)
    ensures mvs[6] == CallEnter(a) && FindsLive(ss[6], mvs[6])
    ensures newId != id && Resolve(ss[6].table, newId) == Some(idx) && Resolve(ss[6].table, id) == None
  {
    ss, mvs := Overtaken(s, id, idx, a, b, false);
    newId := FreshResolves(s.table, ss[6].table, id, idx);
  }

  lemma FreshResolves(t: Table, t': Table, id: nat, idx: nat) returns (newId: nat)
    requires Resolve(t, id) == Some(idx) && t.slots[idx].generation < HALF && |t'.slots| == |t.slots| <= HALF
    requires var g := BumpGeneration(BumpGeneration(t.slots[idx].generation));
             t'.slots[idx] == Slot(g, MakeId(g, idx), true)
    ensures newId != id && Resolve(t', newId) == Some(idx) && Resolve(t', id) == None
    ensures Resolve(Wiped(t', idx), newId) == None
  {
    var g := BumpGeneration(BumpGeneration(t.slots[idx].generation));
    TwoBumps(t.slots[idx].generation);
    IdParts(g, idx);
    newId := MakeId(g, idx);
  }
}
