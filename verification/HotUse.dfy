/**
 What the hot data cache remembers about the use of its entries, told from the calls alone,
 and what its replacement score makes of that (kernel/mm/hot_data_cache.c).
 */
module HotUse {
  import opened HotCache

  // ---------------------------------------------------------------------------
  // Time and number of uses
  // ---------------------------------------------------------------------------

  /** `last`: when the kind was last put or found; `count`: how often since it came in. */
  datatype Use = Use(last: nat, count: nat)

  function AnotherUse(uses: map<nat, Use>, kind: nat, now: nat): map<nat, Use> {
    uses[kind := Use(now, if kind in uses then uses[kind].count + 1 else 1)]
  }

  /** The use of each kind that is cached after the calls. */
  function UsesOf(ops: seq<Op>): map<nat, Use> {
    if ops == [] then map[]
    else
      var uses := UsesOf(ops[..|ops| - 1]);
      match ops[|ops| - 1]
      case OpGet(kind, now) => if kind in uses then AnotherUse(uses, kind, now) else uses
      case OpPut(kind, ptr, now) => if ptr == NULL_PTR then uses else AnotherUse(uses, kind, now)
      case _ => map[]
  }

  /** A count in 64 bits. */
  function Wrapped(n: nat): nat {
    n % 0x1_0000_0000_0000_0000
  }

  predicate SlotStamped(x: Slot, uses: map<nat, Use>) {
    x.valid ==>
      && x.kind in uses && x.lastAccess == uses[x.kind].last
      && x.accesses == Wrapped(uses[x.kind].count)
  }

  ghost predicate Stamped(s: seq<Slot>, uses: map<nat, Use>) {
    && (forall i :: 0 <= i < |s| ==> SlotStamped(s[i], uses))
    && (forall kind: nat :: kind in uses ==> FindKind(s, kind) < |s|)
  }

  lemma CountOn(n: nat)
    ensures (Wrapped(n) + 1) % WORD64 == Wrapped(n + 1) && Wrapped(1) == 1
  {
  }

  /** A slot used once more, and a slot used for the first time. */
  lemma UsedSlot(x: Slot, uses: map<nat, Use>, kind: nat, ptr: nat, now: nat)
    ensures Hit(x, kind) && SlotStamped(x, uses) ==>
              SlotStamped(Slot(kind, ptr, now, (x.accesses + 1) % WORD64, true), AnotherUse(uses, kind, now))
    ensures kind !in uses ==> SlotStamped(Slot(kind, ptr, now, 1, true), AnotherUse(uses, kind, now))
  {
    CountOn(if kind in uses then uses[kind].count else 0);
  }

  lemma GetStamps(s: seq<Slot>, uses: map<nat, Use>, kind: nat, now: nat)
    requires Tidy(s) && Stamped(s, uses)
    ensures Stamped(Touched(s, kind, now), if kind in uses then AnotherUse(uses, kind, now) else uses)
  {
    var s', i := Touched(s, kind, now), FindKind(s, kind);
    if i < |s| {
      assert Hit(s[i], kind) && SlotStamped(s[i], uses);
      UsedSlot(s[i], uses, kind, s[i].ptr, now);
      forall j | 0 <= j < |s| && j != i ensures SlotStamped(s'[j], AnotherUse(uses, kind, now)) {
        assert SlotStamped(s[j], uses);
      }
      forall other: nat ensures FindKind(s', other) == FindKind(s, other) {
        SameHits(s, s', other);
      }
    }
  }

  /** Where a put writes, and what. */
  lemma PutAt(s: seq<Slot>, kind: nat, ptr: nat, now: nat, v: nat)
    requires v < |s| && ptr != NULL_PTR && (FindKind(s, kind) < |s| || FindFree(s) < |s|)
    ensures
      var x := s[Target(s, kind, v)];
      && (FindKind(s, kind) < |s| <==> Hit(x, kind))
      && Put(s, kind, ptr, now, v)[Target(s, kind, v)] ==
         Slot(kind, ptr, now, if Hit(x, kind) then (x.accesses + 1) % WORD64 else 1, true)
  {
  }

  /** The slot that a put writes carries the new use of its kind. */
  lemma PutStampsTarget(s: seq<Slot>, uses: map<nat, Use>, kind: nat, ptr: nat, now: nat, v: nat, x: Slot)
    requires Stamped(s, uses) && v < |s| && (FindKind(s, kind) < |s| || FindFree(s) < |s|)
    requires x == s[Target(s, kind, v)]
    ensures SlotStamped(Slot(kind, ptr, now, if Hit(x, kind) then (x.accesses + 1) % WORD64 else 1, true),
                        AnotherUse(uses, kind, now))
  {
    assert SlotStamped(x, uses);
    UsedSlot(x, uses, kind, ptr, now);
    if !Hit(x, kind) {
      assert kind !in uses;
    }
  }

  lemma PutStampsOther(s: seq<Slot>, uses: map<nat, Use>, kind: nat, now: nat, v: nat, j: nat)
    requires Tidy(s) && Stamped(s, uses) && v < |s| && (FindKind(s, kind) < |s| || FindFree(s) < |s|)
    requires j < |s| && j != Target(s, kind, v)
    ensures SlotStamped(s[j], AnotherUse(uses, kind, now))
  {
    assert SlotStamped(s[j], uses);
    if Hit(s[j], kind) {
      HitIsCached(s, j, kind);
    }
  }

  lemma PutFinds(s: seq<Slot>, kind: nat, ptr: nat, now: nat, v: nat, other: nat)
    requires v < |s| && ptr != NULL_PTR && (FindKind(s, kind) < |s| || FindFree(s) < |s|)
    requires other == kind || FindKind(s, other) < |s|
    ensures FindKind(Put(s, kind, ptr, now, v), other) < |s|
  {
    var s', i := Put(s, kind, ptr, now, v), Target(s, kind, v);
    if other == kind {
      assert Hit(s'[i], other);
    } else {
      var j := FindKind(s, other);
      assert Hit(s[j], other) && j != i && Hit(s'[j], other);
    }
  }

  lemma PutStamps(s: seq<Slot>, uses: map<nat, Use>, kind: nat, ptr: nat, now: nat, v: nat)
    requires Tidy(s) && Stamped(s, uses) && v < |s| && ptr != NULL_PTR
    requires FindKind(s, kind) < |s| || FindFree(s) < |s|
    ensures Stamped(Put(s, kind, ptr, now, v), AnotherUse(uses, kind, now))
  {
    var s', i, uses' := Put(s, kind, ptr, now, v), Target(s, kind, v), AnotherUse(uses, kind, now);
    PutAt(s, kind, ptr, now, v);
    PutStampsTarget(s, uses, kind, ptr, now, v, s[i]);
    forall j | 0 <= j < |s'| ensures SlotStamped(s'[j], uses') {
      if j != i {
        PutStampsOther(s, uses, kind, now, v, j);
      }
    }
    forall other: nat | other in uses' ensures FindKind(s', other) < |s'| {
      PutFinds(s, kind, ptr, now, v, other);
    }
  }

  lemma StepStamps(s: seq<Slot>, op: Op, s': seq<Slot>, uses: map<nat, Use>)
    requires Tidy(s) && KindsBelow(s) && Stamped(s, uses) && Step(s, op, s') && (op.OpPut? ==> op.kind < KINDS)
    ensures Stamped(s', match op
                        case OpGet(kind, now) => if kind in uses then AnotherUse(uses, kind, now) else uses
                        case OpPut(kind, ptr, now) =>
                          if ptr == NULL_PTR then uses else AnotherUse(uses, kind, now)
                        case _ => map[])
  {
    match op
    case OpGet(kind, now) => GetStamps(s, uses, kind, now);
    case OpPut(kind, ptr, now) =>
      var v: nat :| v < |s| && IsVictim(s, v) && s' == Put(s, kind, ptr, now, v);
      if ptr != NULL_PTR {
        NeverReplaces(s, kind);
        PutStamps(s, uses, kind, ptr, now, v);
      }
    case OpFlush =>
    case OpInvalidate =>
  }

  /** In every run over the kernel's kinds exactly the kinds put since the cache was emptied
      are there, each with the time of its last use and the number of its uses, which wraps. */
  lemma {:induction false} StampsInEveryRun(states: seq<seq<Slot>>, ops: seq<Op>, k: nat)
    requires Run(states, ops) && k <= |ops|
    ensures Stamped(states[k], UsesOf(ops[..k]))
  {
    if k > 0 {
      StampsInEveryRun(states, ops, k - 1);
      CacheIsLastPuts(states, ops, k - 1);
      assert ops[..k][..k - 1] == ops[..k - 1];
      StepStamps(states[k - 1], ops[k - 1], states[k], UsesOf(ops[..k - 1]));
    }
  }

  // ---------------------------------------------------------------------------
  // What the score replaces
  // ---------------------------------------------------------------------------

  /** The score does not wrap. */
  predicate Plain(s: Slot) {
    1000 * s.accesses <= s.lastAccess < 0x1_0000_0000_0000_0000
  }

  lemma PlainScore(s: Slot)
    requires Plain(s)
    ensures Score(s) == s.lastAccess - 1000 * s.accesses
  {
  }

  /** Of two slots the one used longer ago goes first, as a least-recently-used policy has it,
      if and only if the other was not used more often by one use for each 1000 ticks that lie
      between them. */
  lemma OlderGoesFirstIff(a: Slot, b: Slot)
    requires Plain(a) && Plain(b) && a.lastAccess <= b.lastAccess
    ensures Score(a) <= Score(b) <==> 1000 * (b.accesses - a.accesses) <= b.lastAccess - a.lastAccess
  {
    PlainScore(a);
    PlainScore(b);
  }

  /** Of two slots used at the same time the one used more often goes first: the comment above
      the score promises the opposite. */
  lemma HotterGoesFirst(a: Slot, b: Slot)
    requires Plain(a) && Plain(b) && a.lastAccess == b.lastAccess
    ensures Score(a) < Score(b) <==> a.accesses > b.accesses
  {
    PlainScore(a);
    PlainScore(b);
  }

  /** So a full cache can replace the one entry that is both the most recently and the most
      often used. */
  lemma HottestReplaced(n: nat, now: nat, uses: nat) returns (s: seq<Slot>)
    requires n >= 2 && 2 <= uses && 1000 * uses <= now < 0x1_0000_0000_0000_0000
    ensures |s| == n && Tidy(s) && IsVictim(s, 0) && forall i :: 0 <= i < n ==> s[i].valid
    ensures forall i :: 1 <= i < n ==> s[i].lastAccess < s[0].lastAccess && s[i].accesses < s[0].accesses
  {
    s := seq(n, i requires 0 <= i => if i == 0 then Slot(0, NULL_PTR + 1, now, uses, true)
                                     else Slot(i, NULL_PTR + 1, now - 1, 1, true));
    forall i | 0 <= i < n ensures Score(s[0]) <= Score(s[i]) {
      PlainScore(s[i]);
      PlainScore(s[0]);
    }
  }
}
