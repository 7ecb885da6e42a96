/**
 The pool of interrupt entries under concurrent attaches and detaches (kernel/irq/irq.c).
 Each call holds the lock of its own line only, so calls on different lines interleave on
 the pool and on the id counter.  The accesses of irq_attach are steps: read the first free
 entry, unlink it, read the next id, advance the counter, link the filled entry.
 */
module IrqPool {
  import opened Lists

  /** A call between two steps, on the line whose lock it holds. */
  datatype Phase =
    | Chosen(line: nat, e: nat)
    | Owned(line: nat, e: nat)
    | Named(line: nat, e: nat, id: nat)
    | Counted(line: nat, e: nat, id: nat)
    | Freeing(line: nat, e: nat)

  /** `ids`: the ids returned so far. */
  datatype Pool = Pool(free: seq<nat>, lists: seq<seq<nat>>, nextId: nat, ids: seq<nat>, pend: map<nat, Phase>)

  datatype Move =
    | Pick(th: nat, line: nat)
    | Take(th: nat)
    | Name(th: nat)
    | Count(th: nat)
    | Link(th: nat)
    | Drop(th: nat, line: nat, k: nat)
    | Return(th: nat)

  predicate LineFree(p: Pool, line: nat) {
    line < |p.lists| && forall th: nat :: th in p.pend ==> p.pend[th].line != line
  }

  predicate Enabled(p: Pool, mv: Move) {
    match mv
    case Pick(th, line) => th !in p.pend && LineFree(p, line)
    case Take(th) => th in p.pend && p.pend[th].Chosen?
    case Name(th) => th in p.pend && p.pend[th].Owned?
    case Count(th) => th in p.pend && p.pend[th].Named?
    case Link(th) => th in p.pend && p.pend[th].Counted?
    case Drop(th, line, k) => th !in p.pend && LineFree(p, line) && k < |p.lists[line]|
    case Return(th) => th in p.pend && p.pend[th].Freeing?
  }

  /** list_del_init: the entry leaves whatever list it is on. */
  function Gone(p: Pool, e: nat): Pool {
    p.(free := Without(p.free, e), lists := GoneFrom(p.lists, e))
  }

  function GoneFrom(lists: seq<seq<nat>>, e: nat): (r: seq<seq<nat>>)
    ensures |r| == |lists| && forall i :: 0 <= i < |r| ==> r[i] == Without(lists[i], e)
  {
    seq(|lists|, i requires 0 <= i < |lists| => Without(lists[i], e))
  }

  predicate LinesOk(p: Pool) {
    forall th: nat :: th in p.pend ==> p.pend[th].line < |p.lists|
  }

  function Next(p: Pool, mv: Move): (p': Pool)
    requires LinesOk(p) && Enabled(p, mv)
    ensures LinesOk(p') && |p'.lists| == |p.lists|
  {
    match mv
    case Pick(th, line) => if p.free == [] then p else p.(pend := p.pend[th := Chosen(line, p.free[0])])
    case Take(th) =>
      var ph := p.pend[th];
      Gone(p, ph.e).(pend := p.pend[th := Owned(ph.line, ph.e)])
    case Name(th) =>
      var ph := p.pend[th];
      p.(pend := p.pend[th := Named(ph.line, ph.e, p.nextId)])
    case Count(th) =>
      var ph := p.pend[th];
      p.(nextId := p.nextId + 1, pend := p.pend[th := Counted(ph.line, ph.e, ph.id)])
    case Link(th) =>
      var ph := p.pend[th];
      p.(lists := p.lists[ph.line := p.lists[ph.line] + [ph.e]], ids := p.ids + [ph.id], pend := p.pend - {th})
    case Drop(th, line, k) =>
      var e := p.lists[line][k];
      Gone(p, e).(pend := p.pend[th := Freeing(line, e)])
    case Return(th) => p.(free := p.free + [p.pend[th].e], pend := p.pend - {th})
  }

  // ---------------------------------------------------------------------------
  // Where each entry is
  // ---------------------------------------------------------------------------

  datatype Place = InPool | OnLine(line: nat) | With(th: nat)

  predicate Holds(ph: Phase) {
    !ph.Chosen?
  }

  ghost predicate FreeIs(free: seq<nat>, place: seq<Place>) {
    NoDup(free) && forall e: nat :: e in free <==> e < |place| && place[e] == InPool
  }

  ghost predicate ListIs(list: seq<nat>, place: seq<Place>, i: nat) {
    NoDup(list) && forall e: nat :: e in list <==> e < |place| && place[e] == OnLine(i)
  }

  ghost predicate HeldIs(pend: map<nat, Phase>, place: seq<Place>) {
    && (forall th: nat :: th in pend ==> pend[th].e < |place|)
    && (forall th: nat :: th in pend && Holds(pend[th]) ==> place[pend[th].e] == With(th))
    && forall e: nat :: e < |place| && place[e].With? ==>
         place[e].th in pend && Holds(pend[place[e].th]) && pend[place[e].th].e == e
  }

  /** Every entry is in the pool, on one line, or with one call. */
  ghost predicate Inv(p: Pool, place: seq<Place>) {
    && LinesOk(p) && FreeIs(p.free, place) && HeldIs(p.pend, place)
    && (forall e: nat :: e < |place| && place[e].OnLine? ==> place[e].line < |p.lists|)
    && forall i: nat {:trigger ListIs(p.lists[i], place, i)} :: i < |p.lists| ==> ListIs(p.lists[i], place, i)
  }

  ghost predicate Sound(p: Pool) {
    exists place: seq<Place> :: Inv(p, place)
  }

  ghost function NextPlace(p: Pool, place: seq<Place>, mv: Move): seq<Place>
    requires Inv(p, place) && Enabled(p, mv)
  {
    match mv
    case Take(th) => place[p.pend[th].e := With(th)]
    case Link(th) => place[p.pend[th].e := OnLine(p.pend[th].line)]
    case Drop(th, line, k) =>
      assert ListIs(p.lists[line], place, line) && p.lists[line][k] in p.lists[line];
      place[p.lists[line][k] := With(th)]
    case Return(th) => place[p.pend[th].e := InPool]
    case _ => place
  }

  /** One entry goes from wherever it is listed to a call. */
  lemma GoneKeeps(p: Pool, place: seq<Place>, e: nat, th: nat, ph: Phase)
    requires Inv(p, place) && e < |place| && !place[e].With? && ph.e == e && Holds(ph) && ph.line < |p.lists|
    requires th in p.pend ==> !Holds(p.pend[th])
    ensures Inv(Gone(p, e).(pend := p.pend[th := ph]), place[e := With(th)])
  {
    var p', place' := Gone(p, e).(pend := p.pend[th := ph]), place[e := With(th)];
    WithoutProps(p.free, e);
    forall i: nat | i < |p'.lists| ensures ListIs(p'.lists[i], place', i) {
      assert ListIs(p.lists[i], place, i);
      WithoutProps(p.lists[i], e);
    }
  }

  /** What the code leaves to its callers: the entry that was read is still in the pool when
      it is unlinked. */
  predicate InTime(p: Pool, mv: Move)
    requires Enabled(p, mv)
  {
    mv.Take? ==> p.pend[mv.th].e in p.free
  }

  lemma LinkKeeps(p: Pool, place: seq<Place>, th: nat)
    requires Inv(p, place) && Enabled(p, Link(th))
    ensures Inv(Next(p, Link(th)), NextPlace(p, place, Link(th)))
  {
    var p', place', ph := Next(p, Link(th)), NextPlace(p, place, Link(th)), p.pend[th];
    forall i: nat | i < |p'.lists| ensures ListIs(p'.lists[i], place', i) {
      assert ListIs(p.lists[i], place, i);
      NoDupJoin(p.lists[i], [ph.e]);
    }
  }

  lemma ReturnKeeps(p: Pool, place: seq<Place>, th: nat)
    requires Inv(p, place) && Enabled(p, Return(th))
    ensures Inv(Next(p, Return(th)), NextPlace(p, place, Return(th)))
  {
    var p', place' := Next(p, Return(th)), NextPlace(p, place, Return(th));
    NoDupJoin(p.free, [p.pend[th].e]);
    forall i: nat | i < |p'.lists| ensures ListIs(p'.lists[i], place', i) {
      assert ListIs(p.lists[i], place, i);
    }
  }

  /** Steps that move no entry. */
  lemma PhaseKeeps(p: Pool, place: seq<Place>, p': Pool, th: nat, ph: Phase)
    requires Inv(p, place) && p' == p.(nextId := p'.nextId, pend := p.pend[th := ph]) && ph.line < |p.lists|
    requires ph.e < |place|
    requires if th in p.pend then Holds(p.pend[th]) && Holds(ph) && ph.e == p.pend[th].e else !Holds(ph)
    ensures Inv(p', place)
  {
    forall i: nat | i < |p'.lists| ensures ListIs(p'.lists[i], place, i) {
      assert ListIs(p.lists[i], place, i);
    }
  }

  lemma PickKeeps(p: Pool, place: seq<Place>, th: nat, line: nat)
    requires Inv(p, place) && Enabled(p, Pick(th, line))
    ensures Inv(Next(p, Pick(th, line)), place)
  {
    if p.free != [] {
      assert p.free[0] in p.free;
      PhaseKeeps(p, place, Next(p, Pick(th, line)), th, Chosen(line, p.free[0]));
    }
  }

  lemma DropKeeps(p: Pool, place: seq<Place>, th: nat, line: nat, k: nat)
    requires Inv(p, place) && Enabled(p, Drop(th, line, k))
    ensures Inv(Next(p, Drop(th, line, k)), NextPlace(p, place, Drop(th, line, k)))
  {
    var e := p.lists[line][k];
    assert ListIs(p.lists[line], place, line) && e in p.lists[line];
    GoneKeeps(p, place, e, th, Freeing(line, e));
  }

  /** A step that finds what it read keeps every entry in one place. */
  lemma StepKeeps(p: Pool, place: seq<Place>, mv: Move)
    requires Inv(p, place) && Enabled(p, mv) && InTime(p, mv)
    ensures Inv(Next(p, mv), NextPlace(p, place, mv))
  {
    match mv
    case Pick(th, line) => PickKeeps(p, place, th, line);
    case Take(th) =>
      var ph := p.pend[th];
      GoneKeeps(p, place, ph.e, th, Owned(ph.line, ph.e));
    case Name(th) => PhaseKeeps(p, place, Next(p, mv), th, Next(p, mv).pend[th]);
    case Count(th) => PhaseKeeps(p, place, Next(p, mv), th, Next(p, mv).pend[th]);
    case Link(th) => LinkKeeps(p, place, th);
    case Drop(th, line, k) => DropKeeps(p, place, th, line, k);
    case Return(th) => ReturnKeeps(p, place, th);
  }

  // ---------------------------------------------------------------------------
  // Exactly when unlinking the entry is safe
  // ---------------------------------------------------------------------------

  lemma HeldOnce(p: Pool, place: seq<Place>, th: nat, h: nat)
    requires th in p.pend && h in p.pend && Holds(p.pend[th]) && Holds(p.pend[h]) && p.pend[th].e == p.pend[h].e
    ensures Inv(p, place) ==> th == h
  {
    if Inv(p, place) {
      assert place[p.pend[th].e] == With(th);
    }
  }

  /** Unlinking the entry that was read keeps every entry in one place and takes it from no
      line if and only if it is still in the pool. */
  lemma TakeSafeIff(p: Pool, place: seq<Place>, th: nat)
    requires Inv(p, place) && Enabled(p, Take(th))
    ensures Sound(Next(p, Take(th))) && Next(p, Take(th)).lists == p.lists <==> p.pend[th].e in p.free
  {
    var e, p' := p.pend[th].e, Next(p, Take(th));
    if e in p.free {
      StepKeeps(p, place, Take(th));
      forall i: nat | i < |p.lists| ensures p'.lists[i] == p.lists[i] {
        assert ListIs(p.lists[i], place, i);
        WithoutLast(p.lists[i], e);
      }
    } else {
      match place[e]
      case OnLine(i) => TakenFromLine(p, place, th, i);
      case With(h) =>
        forall place': seq<Place> ensures !Inv(p', place') {
          HeldOnce(p', place', th, h);
        }
      case InPool =>
    }
  }

  lemma TakenFromLine(p: Pool, place: seq<Place>, th: nat, i: nat)
    requires Inv(p, place) && Enabled(p, Take(th)) && place[p.pend[th].e] == OnLine(i)
    ensures Next(p, Take(th)).lists != p.lists
  {
    assert ListIs(p.lists[i], place, i);
    WithoutProps(p.lists[i], p.pend[th].e);
  }

  // ---------------------------------------------------------------------------
  // Exactly when the id read is new
  // ---------------------------------------------------------------------------

  predicate HasId(ph: Phase) {
    ph.Named? || ph.Counted?
  }

  /** Ids returned are distinct and below the counter, ids of calls under way are neither
      returned nor shared, and only a call that has yet to advance the counter has its value. */
  ghost predicate IdsOk(p: Pool) {
    && NoDup(p.ids) && (forall k :: 0 <= k < |p.ids| ==> p.ids[k] < p.nextId)
    && (forall th: nat :: th in p.pend && HasId(p.pend[th]) ==>
          && p.pend[th].id !in p.ids && p.pend[th].id <= p.nextId
          && (p.pend[th].id == p.nextId <==> p.pend[th].Named?))
    && (forall th: nat, h: nat ::
          (th in p.pend && h in p.pend && th != h && HasId(p.pend[th]) && HasId(p.pend[h])) ==>
            p.pend[th].id != p.pend[h].id)
  }

  /** A call reads the counter while no other call is between reading and advancing it. */
  ghost predicate ReadsAlone(p: Pool, mv: Move) {
    mv.Name? ==> forall th: nat :: th in p.pend ==> !p.pend[th].Named?
  }

  /** A step keeps ids apart if and only if it does not read the counter between another
      call's read and increment. */
  lemma KeepsIdsIff(p: Pool, mv: Move)
    requires LinesOk(p) && IdsOk(p) && Enabled(p, mv)
    ensures IdsOk(Next(p, mv)) <==> ReadsAlone(p, mv)
  {
    match mv
    case Name(th) => NameIds(p, th);
    case Link(th) => LinkIds(p, th);
    case Take(_) =>
    case Drop(_, _, _) =>
    case _ =>
  }

  lemma NameIds(p: Pool, th: nat)
    requires LinesOk(p) && IdsOk(p) && Enabled(p, Name(th))
    ensures IdsOk(Next(p, Name(th))) <==> ReadsAlone(p, Name(th))
  {
    var p' := Next(p, Name(th));
    if !ReadsAlone(p, Name(th)) {
      var h: nat :| h in p.pend && p.pend[h].Named?;
      assert h != th && p'.pend[h] == p.pend[h] && p'.pend[h].id == p'.pend[th].id;
    }
  }

  lemma LinkIds(p: Pool, th: nat)
    requires LinesOk(p) && IdsOk(p) && Enabled(p, Link(th))
    ensures IdsOk(Next(p, Link(th)))
  {
    NoDupJoin(p.ids, [p.pend[th].id]);
  }

  // ---------------------------------------------------------------------------
  // Runs
  // ---------------------------------------------------------------------------

  function InitPool(lines: nat, entries: nat): Pool {
    Pool(seq(entries, e requires 0 <= e => e), seq(lines, _ => []), 1, [], map[])
  }

  ghost predicate Steps(ps: seq<Pool>, mvs: seq<Move>) {
    && |ps| == |mvs| + 1
    && forall k: nat :: k < |mvs| ==> LinesOk(ps[k]) && Enabled(ps[k], mvs[k]) && ps[k + 1] == Next(ps[k], mvs[k])
  }

  lemma InitInv(lines: nat, entries: nat)
    ensures Inv(InitPool(lines, entries), seq(entries, _ => InPool)) && IdsOk(InitPool(lines, entries))
  {
    var p := InitPool(lines, entries);
    forall e: nat | e < entries ensures e in p.free {
      assert p.free[e] == e;
    }
  }

  /** In every interleaving in which entries are unlinked while still in the pool and the
      counter is read alone, each entry is in one place and no id is given twice. */
  lemma {:induction false} PoolInEveryRun(lines: nat, entries: nat, ps: seq<Pool>, mvs: seq<Move>, k: nat)
    returns (place: seq<Place>)
    requires Steps(ps, mvs) && ps[0] == InitPool(lines, entries) && k <= |mvs|
    requires forall j: nat :: j < k ==> InTime(ps[j], mvs[j]) && ReadsAlone(ps[j], mvs[j])
    ensures Inv(ps[k], place) && IdsOk(ps[k])
  {
    if k == 0 {
      InitInv(lines, entries);
      place := seq(entries, _ => InPool);
    } else {
      var before := PoolInEveryRun(lines, entries, ps, mvs, k - 1);
      StepKeeps(ps[k - 1], before, mvs[k - 1]);
      KeepsIdsIff(ps[k - 1], mvs[k - 1]);
      place := NextPlace(ps[k - 1], before, mvs[k - 1]);
    }
  }

  // ---------------------------------------------------------------------------
  // Two attaches on different lines
  // ---------------------------------------------------------------------------

  lemma {:induction false} WithoutMiddle(s: seq<nat>, k: nat)
    requires NoDup(s) && k < |s|
    ensures Without(s, s[k]) == s[..k] + s[k + 1..]
  {
    if k > 0 {
      WithoutMiddle(s[1..], k - 1);
      assert s[1..][..k - 1] == s[1..k] && s[..k] == [s[0]] + s[1..k];
    }
  }

  /** A detach with nothing in between: the entry leaves its line and is the last one that the
      pool gives out again. */
  lemma DetachAlone(p: Pool, place: seq<Place>, th: nat, line: nat, k: nat)
    requires Inv(p, place) && Enabled(p, Drop(th, line, k))
    ensures
      var p1 := Next(p, Drop(th, line, k));
      && Enabled(p1, Return(th))
      && var p2, e, list := Next(p1, Return(th)), p.lists[line][k], p.lists[line];
      && p2.free == p.free + [e] && p2.pend == p.pend && p2.nextId == p.nextId && p2.ids == p.ids
      && p2.lists[line] == list[..k] + list[k + 1..]
      && forall i: nat :: i < |p.lists| && i != line ==> p2.lists[i] == p.lists[i]
  {
    var e, list := p.lists[line][k], p.lists[line];
    assert ListIs(list, place, line) && FreeIs(p.free, place);
    assert e in list && e !in p.free;
    WithoutLast(p.free, e);
    WithoutMiddle(list, k);
    forall i: nat | i < |p.lists| && i != line ensures Without(p.lists[i], e) == p.lists[i] {
      assert ListIs(p.lists[i], place, i);
      WithoutLast(p.lists[i], e);
    }
  }

  /** Two calls on two lines have both read the same first entry. */
  ghost predicate BothChose(p: Pool, x: nat, a: nat, y: nat, b: nat, e: nat) {
    && LinesOk(p) && x != y && a != b && a < |p.lists| && b < |p.lists|
    && x in p.pend && y in p.pend && p.pend[x] == Chosen(a, e) && p.pend[y] == Chosen(b, e)
  }

  lemma BothPick(p: Pool, x: nat, a: nat, y: nat, b: nat)
    requires LinesOk(p) && p.free != [] && x != y && a != b && x !in p.pend && y !in p.pend
    requires LineFree(p, a) && LineFree(p, b)
    ensures
      && Enabled(p, Pick(x, a)) && Enabled(Next(p, Pick(x, a)), Pick(y, b))
      && var q := Next(Next(p, Pick(x, a)), Pick(y, b));
      && BothChose(q, x, a, y, b, p.free[0]) && q.free == p.free && q.lists == p.lists
  {
  }

  /** The rest of an attach, with nothing in between. */
  lemma Finish(p: Pool, x: nat) returns (ps: seq<Pool>, mvs: seq<Move>)
    requires LinesOk(p) && x in p.pend && p.pend[x].Chosen?
    ensures Steps(ps, mvs) && ps[0] == p && mvs == [Take(x), Name(x), Count(x), Link(x)]
    ensures
      var ph, lists := p.pend[x], GoneFrom(p.lists, p.pend[x].e);
      && LinesOk(ps[4]) && ps[4].pend == p.pend - {x} && ps[4].ids == p.ids + [p.nextId]
      && ps[4].lists == lists[ph.line := lists[ph.line] + [ph.e]]
  {
    mvs := [Take(x), Name(x), Count(x), Link(x)];
    var p1 := Next(p, mvs[0]);
    var p2 := Next(p1, mvs[1]);
    var p3 := Next(p2, mvs[2]);
    ps := [p, p1, p2, p3, Next(p3, mvs[3])];
    assert ps[4].pend == p.pend - {x};
  }

  /** Whenever the pool is not empty and two lines are idle, two attaches that read the same
      entry can both succeed, one after the other: the line of the first ends without the
      handler it just attached, and the second has it. */
  lemma HandlerStolen(p: Pool, place: seq<Place>, x: nat, a: nat, y: nat, b: nat)
    returns (ps: seq<Pool>, first: seq<Move>, qs: seq<Pool>, second: seq<Move>)
    requires Inv(p, place) && p.free != [] && x != y && a != b && x !in p.pend && y !in p.pend
    requires LineFree(p, a) && LineFree(p, b)
    ensures Enabled(p, Pick(x, a)) && Enabled(Next(p, Pick(x, a)), Pick(y, b))
    ensures Steps(ps, first) && ps[0] == Next(Next(p, Pick(x, a)), Pick(y, b)) && |first| == 4
    ensures Steps(qs, second) && qs[0] == ps[4] && |second| == 4
    ensures |ps[4].ids| == |p.ids| + 1 && |qs[4].ids| == |p.ids| + 2
    ensures |ps[4].lists| == |qs[4].lists| == |p.lists| && ps[4].lists[a] == p.lists[a] + [p.free[0]]
    ensures qs[4].lists[a] == p.lists[a] && qs[4].lists[b] == p.lists[b] + [p.free[0]]
  {
    var e := p.free[0];
    assert e in p.free && ListIs(p.lists[a], place, a) && ListIs(p.lists[b], place, b);
    BothPick(p, x, a, y, b);
    ps, first := Finish(Next(Next(p, Pick(x, a)), Pick(y, b)), x);
    qs, second := Finish(ps[4], y);
    WithoutLast(p.lists[a], e);
    WithoutLast(p.lists[b], e);
  }

  /** And two attaches that read the counter together return the same id. */
  lemma IdGivenTwice(p: Pool, x: nat, y: nat) returns (ps: seq<Pool>, mvs: seq<Move>)
    requires LinesOk(p) && x != y && x in p.pend && y in p.pend && p.pend[x].Owned? && p.pend[y].Owned?
    ensures Steps(ps, mvs) && ps[0] == p && ps[|mvs|].ids == p.ids + [p.nextId] + [p.nextId]
  {
    mvs := [Name(x), Name(y), Count(x), Count(y), Link(x), Link(y)];
    var p1 := Next(p, mvs[0]);
    var p2 := Next(p1, mvs[1]);
    var p3 := Next(p2, mvs[2]);
    var p4 := Next(p3, mvs[3]);
    var p5 := Next(p4, mvs[4]);
    ps := [p, p1, p2, p3, p4, p5, Next(p5, mvs[5])];
  }
}
