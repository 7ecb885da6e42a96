/**
 The hot data cache (kernel/mm/hot_data_cache.c): a handful of entries searched linearly,
 with a least-recently-used replacement for the case that none is free.
 */
module HotCache {
  import opened Lists

  const ENTRIES: nat := 8
  const KINDS: nat := 7
  const NULL_PTR: nat := 0
  const WORD64: nat := 0x1_0000_0000_0000_0000

  datatype Slot = Slot(kind: nat, ptr: nat, lastAccess: nat, accesses: nat, valid: bool)

  const EMPTY: Slot := Slot(KINDS, NULL_PTR, 0, 0, false)

  predicate Hit(s: Slot, kind: nat) {
    s.valid && s.kind == kind
  }

  /** The unsigned 64-bit score of a slot; the smallest is replaced first. */
  function Score(s: Slot): nat {
    (s.lastAccess - s.accesses * 1000) % WORD64
  }

  /** hot_data_cache_find_entry. */
  function FindKind(s: seq<Slot>, kind: nat): (r: nat)
    ensures r <= |s| && (r < |s| ==> Hit(s[r], kind)) && forall i :: 0 <= i < r ==> !Hit(s[i], kind)
  {
    if s == [] || Hit(s[0], kind) then 0 else
    var r := FindKind(s[1..], kind);
    assert forall i :: 1 <= i < r + 1 ==> s[i] == s[1..][i - 1];
    r + 1
  }

  /** hot_data_cache_find_free_entry. */
  function FindFree(s: seq<Slot>): (r: nat)
    ensures r <= |s| && (r < |s| ==> !s[r].valid) && forall i :: 0 <= i < r ==> s[i].valid
  {
    if s == [] || !s[0].valid then 0 else
    var r := FindFree(s[1..]);
    assert forall i :: 1 <= i < r + 1 ==> s[i] == s[1..][i - 1];
    r + 1
  }

  /** The slot that hot_data_cache_find_lru_entry picks from a full cache: the first one of
      the smallest score, or slot 0 when every score is the largest word. */
  predicate IsVictim(s: seq<Slot>, v: nat) {
    && v < |s|
    && (forall i :: 0 <= i < |s| ==> Score(s[v]) <= Score(s[i]))
    && (forall i :: 0 <= i < v ==> Score(s[v]) < Score(s[i]))
  }

  /** hot_data_cache_get without its bookkeeping. */
  function Cached(s: seq<Slot>, kind: nat): nat {
    var i := FindKind(s, kind);
    if i < |s| then s[i].ptr else NULL_PTR
  }

  function Touched(s: seq<Slot>, kind: nat, now: nat): (r: seq<Slot>)
    ensures |r| == |s|
  {
    var i := FindKind(s, kind);
    if i < |s| then s[i := s[i].(lastAccess := now, accesses := (s[i].accesses + 1) % WORD64)] else s
  }

  /** Where hot_data_cache_put stores, for some victim v should the cache be full. */
  function Target(s: seq<Slot>, kind: nat, v: nat): nat {
    if FindKind(s, kind) < |s| then FindKind(s, kind)
    else if FindFree(s) < |s| then FindFree(s)
    else v
  }

  function Put(s: seq<Slot>, kind: nat, ptr: nat, now: nat, v: nat): (r: seq<Slot>)
    requires v < |s|
    ensures |r| == |s|
  {
    if ptr == NULL_PTR then s
    else
      var i := Target(s, kind, v);
      s[i := Slot(kind, ptr, now, if Hit(s[i], kind) then (s[i].accesses + 1) % WORD64 else 1, true)]
  }

  function Invalidated(s: seq<Slot>): (r: seq<Slot>)
    ensures |r| == |s| && forall i :: 0 <= i < |s| ==> r[i] == s[i].(valid := false)
  {
    seq(|s|, i requires 0 <= i < |s| => s[i].(valid := false))
  }

  /** No kind is cached twice and no null pointer is cached. */
  predicate Tidy(s: seq<Slot>) {
    && (forall i :: 0 <= i < |s| && s[i].valid ==> s[i].ptr != NULL_PTR)
    && (forall i, j :: 0 <= i < j < |s| && s[i].valid && s[j].valid ==> s[i].kind != s[j].kind)
  }

  /** The cache as a map from kinds to pointers. */
  ghost predicate Mirrors(s: seq<Slot>, m: map<nat, nat>) {
    forall kind: nat :: Cached(s, kind) == if kind in m then m[kind] else NULL_PTR
  }

  /** In a tidy cache any hit is the hit. */
  lemma HitIsCached(s: seq<Slot>, i: nat, kind: nat)
    requires Tidy(s) && i < |s| && Hit(s[i], kind)
    ensures FindKind(s, kind) == i && Cached(s, kind) == s[i].ptr
  {
  }

  /** Reading changes no contents. */
  lemma TouchKeeps(s: seq<Slot>, kind: nat, now: nat, m: map<nat, nat>)
    requires Tidy(s) && Mirrors(s, m)
    ensures Tidy(Touched(s, kind, now)) && Mirrors(Touched(s, kind, now), m)
  {
    var s' := Touched(s, kind, now);
    assert Tidy(s');
    forall other: nat ensures Cached(s', other) == Cached(s, other) {
      SameHits(s, s', other);
    }
  }

  lemma SameHits(s: seq<Slot>, s': seq<Slot>, kind: nat)
    requires |s'| == |s| && forall i :: 0 <= i < |s| ==> Hit(s'[i], kind) == Hit(s[i], kind)
    requires forall i :: 0 <= i < |s| && Hit(s[i], kind) ==> s'[i].ptr == s[i].ptr
    ensures FindKind(s', kind) == FindKind(s, kind) && Cached(s', kind) == Cached(s, kind)
  {
  }

  /** Overwriting slot i changes the lookups of its old and its new kind only. */
  lemma OverwriteLookup(s: seq<Slot>, i: nat, x: Slot, other: nat)
    requires i < |s| && x.valid && Tidy(s) && Tidy(s[i := x])
    ensures Cached(s[i := x], other) ==
            if other == x.kind then x.ptr else if Hit(s[i], other) then NULL_PTR else Cached(s, other)
  {
    var s' := s[i := x];
    if other == x.kind {
      HitIsCached(s', i, other);
    } else if Hit(s[i], other) {
      HitIsCached(s, i, other);
    } else {
      SameHits(s, s', other);
    }
  }

  /** What a put makes of the contents: the new pair is there, and the only thing that can
      be missing is a replaced kind, when the cache was full and did not hold the new one. */
  lemma PutEffect(s: seq<Slot>, kind: nat, ptr: nat, now: nat, v: nat, m: map<nat, nat>)
    requires Tidy(s) && Mirrors(s, m) && v < |s| && ptr != NULL_PTR
    ensures Tidy(Put(s, kind, ptr, now, v))
    ensures Mirrors(Put(s, kind, ptr, now, v),
                    if FindKind(s, kind) == |s| && FindFree(s) == |s| then (m - {s[v].kind})[kind := ptr]
                    else m[kind := ptr])
  {
    var s', i := Put(s, kind, ptr, now, v), Target(s, kind, v);
    var m' := if FindKind(s, kind) == |s| && FindFree(s) == |s| then (m - {s[v].kind})[kind := ptr]
              else m[kind := ptr];
    PutTidy(s, kind, ptr, now, v);
    forall other: nat ensures Cached(s', other) == if other in m' then m'[other] else NULL_PTR {
      OverwriteLookup(s, i, s'[i], other);
      assert s' == s[i := s'[i]];
      assert Cached(s, other) == if other in m then m[other] else NULL_PTR;
    }
  }

  lemma PutTidy(s: seq<Slot>, kind: nat, ptr: nat, now: nat, v: nat)
    requires Tidy(s) && v < |s| && ptr != NULL_PTR
    ensures Tidy(Put(s, kind, ptr, now, v))
  {
    var i := Target(s, kind, v);
    assert FindKind(s, kind) < |s| ==> i == FindKind(s, kind);
    assert forall j :: 0 <= j < |s| && j != i && s[j].valid ==> !Hit(s[j], kind);
  }

  function Kinds(s: seq<Slot>): (r: seq<nat>)
    ensures |r| == |s| && forall i :: 0 <= i < |s| ==> r[i] == s[i].kind
  {
    seq(|s|, i requires 0 <= i < |s| => s[i].kind)
  }

  /** With at least as many slots as kinds a put never replaces anything. */
  lemma NeverReplaces(s: seq<Slot>, kind: nat)
    requires Tidy(s) && kind < |s| && forall i :: 0 <= i < |s| && s[i].valid ==> s[i].kind < |s|
    ensures FindKind(s, kind) < |s| || FindFree(s) < |s|
  {
    if FindKind(s, kind) == |s| && FindFree(s) == |s| {
      NoDupJoin(Kinds(s), [kind]);
      DistinctBelow(Kinds(s) + [kind], |s|);
      assert false;
    }
  }

  // ---------------------------------------------------------------------------
  // Runs
  // ---------------------------------------------------------------------------

  datatype Op = OpGet(kind: nat, now: nat) | OpPut(kind: nat, ptr: nat, now: nat) | OpFlush | OpInvalidate

  predicate Step(s: seq<Slot>, op: Op, s': seq<Slot>) {
    match op
    case OpGet(kind, now) => s' == Touched(s, kind, now)
    case OpPut(kind, ptr, now) => exists v: nat :: v < |s| && IsVictim(s, v) && s' == Put(s, kind, ptr, now, v)
    case OpFlush => s' == seq(|s|, _ => EMPTY)
    case OpInvalidate => s' == Invalidated(s)
  }

  /** The last pointer put for each kind since the cache was last emptied. */
  function LastPuts(ops: seq<Op>): map<nat, nat> {
    if ops == [] then map[]
    else
      var m := LastPuts(ops[..|ops| - 1]);
      match ops[|ops| - 1]
      case OpGet(_, _) => m
      case OpPut(kind, ptr, _) => if ptr == NULL_PTR then m else m[kind := ptr]
      case _ => map[]
  }

  ghost predicate Run(states: seq<seq<Slot>>, ops: seq<Op>) {
    && |states| == |ops| + 1 && states[0] == seq(ENTRIES, _ => EMPTY)
    && forall k: nat :: k < |ops| ==>
          Step(states[k], ops[k], states[k + 1]) && (ops[k].OpPut? ==> ops[k].kind < KINDS)
  }

  ghost predicate KindsBelow(s: seq<Slot>) {
    |s| == ENTRIES && forall i :: 0 <= i < |s| && s[i].valid ==> s[i].kind < KINDS
  }

  lemma StoreMirrors(s: seq<Slot>, kind: nat, ptr: nat, now: nat, v: nat, m: map<nat, nat>)
    requires Tidy(s) && Mirrors(s, m) && KindsBelow(s) && kind < KINDS && ptr != NULL_PTR && v < |s|
    ensures
      var s' := Put(s, kind, ptr, now, v);
      Tidy(s') && KindsBelow(s') && Mirrors(s', m[kind := ptr])
  {
    NeverReplaces(s, kind);
    PutEffect(s, kind, ptr, now, v, m);
  }

  lemma StepMirrors(s: seq<Slot>, op: Op, s': seq<Slot>, m: map<nat, nat>)
    requires Tidy(s) && Mirrors(s, m) && KindsBelow(s) && Step(s, op, s') && (op.OpPut? ==> op.kind < KINDS)
    ensures Tidy(s') && KindsBelow(s')
    ensures Mirrors(s', match op
                        case OpGet(_, _) => m
                        case OpPut(kind, ptr, _) => if ptr == NULL_PTR then m else m[kind := ptr]
                        case _ => map[])
  {
    match op
    case OpGet(kind, now) => TouchKeeps(s, kind, now, m);
    case OpPut(kind, ptr, now) =>
      var v: nat :| v < |s| && IsVictim(s, v) && s' == Put(s, kind, ptr, now, v);
      if ptr != NULL_PTR {
        StoreMirrors(s, kind, ptr, now, v, m);
      }
    case OpFlush =>
    case OpInvalidate =>
  }

  /** In every run over the kinds of the kernel's table, a lookup gives the last pointer put
      for that kind since the last flush or invalidation: nothing is ever replaced. */
  lemma {:induction false} CacheIsLastPuts(states: seq<seq<Slot>>, ops: seq<Op>, k: nat)
    requires Run(states, ops) && k <= |ops|
    ensures Tidy(states[k]) && KindsBelow(states[k]) && Mirrors(states[k], LastPuts(ops[..k]))
  {
    if k > 0 {
      CacheIsLastPuts(states, ops, k - 1);
      assert ops[..k][..k - 1] == ops[..k - 1];
      StepMirrors(states[k - 1], ops[k - 1], states[k], LastPuts(ops[..k - 1]));
    }
  }

  // ---------------------------------------------------------------------------
  // The array behind it
  // ---------------------------------------------------------------------------

  class Cache {
    const slots: array<Slot>

    constructor ()
      ensures fresh(slots) && slots[..] == seq(ENTRIES, _ => EMPTY)
    {
      slots := new Slot[ENTRIES](_ => EMPTY);
    }

    method Find(kind: nat) returns (i: nat)
      ensures i == FindKind(slots[..], kind)
    {
      i := 0;
      while i < slots.Length && !(slots[i].kind == kind && slots[i].valid)
        invariant i <= slots.Length && forall j :: 0 <= j < i ==> !Hit(slots[j], kind)
      {
        i := i + 1;
      }
      assert i < slots.Length ==> Hit(slots[..][i], kind);
    }

    method FindUnused() returns (i: nat)
      ensures i == FindFree(slots[..])
    {
      i := 0;
      while i < slots.Length && slots[i].valid
        invariant i <= slots.Length && forall j :: 0 <= j < i ==> slots[j].valid
      {
        i := i + 1;
      }
      assert i < slots.Length ==> !slots[..][i].valid;
    }

    /** hot_data_cache_find_lru_entry; the starting score is the largest word. */
    method FindVictim() returns (v: nat)
      requires slots.Length > 0 && forall i :: 0 <= i < slots.Length ==> slots[i].valid
      ensures IsVictim(slots[..], v)
    {
      v := 0;
      var best := WORD64 - 1;
      for i := 0 to slots.Length
        invariant v < slots.Length && best <= WORD64 - 1
        invariant best == WORD64 - 1 ==> v == 0
        invariant best < WORD64 - 1 ==> best == Score(slots[v]) && v < i
        invariant forall j :: 0 <= j < i ==> best <= Score(slots[j])
        invariant best < WORD64 - 1 ==> forall j :: 0 <= j < v ==> best < Score(slots[j])
      {
        if slots[i].valid {
          var score := Score(slots[i]);
          if score < best {
            best := score;
            v := i;
          }
        }
      }
    }

    method Get(kind: nat, now: nat) returns (ptr: nat)
      modifies slots
      ensures slots[..] == Touched(old(slots[..]), kind, now)
      ensures ptr == Cached(old(slots[..]), kind)
    {
      ptr := NULL_PTR;
      var i := Find(kind);
      if i < slots.Length {
        ptr := slots[i].ptr;
        slots[i] := slots[i].(lastAccess := now, accesses := (slots[i].accesses + 1) % WORD64);
      }
    }

    method Store(kind: nat, ptr: nat, now: nat) returns (ok: bool)
      requires slots.Length > 0
      modifies slots
      ensures ok == (ptr != NULL_PTR)
      ensures ok ==> Step(old(slots[..]), OpPut(kind, ptr, now), slots[..])
      ensures !ok ==> slots[..] == old(slots[..])
    {
      if ptr == NULL_PTR {
        return false;
      }
      ok := true;
      ghost var s, v := slots[..], SomeVictim(slots[..]);
      var i := Find(kind);
      if i < slots.Length {
        slots[i] := slots[i].(ptr := ptr, lastAccess := now, accesses := (slots[i].accesses + 1) % WORD64);
      } else {
        i := FindUnused();
        if i >= slots.Length {
          i := FindVictim();
          v := i;
        }
        slots[i] := Slot(kind, ptr, now, 1, true);
      }
      assert slots[..] == Put(s, kind, ptr, now, v);
    }

    method Flush()
      modifies slots
      ensures slots[..] == seq(slots.Length, _ => EMPTY)
    {
      for i := 0 to slots.Length
        invariant forall j :: 0 <= j < i ==> slots[j] == EMPTY
      {
        slots[i] := EMPTY;
      }
    }

    method Invalidate()
      modifies slots
      ensures slots[..] == Invalidated(old(slots[..]))
    {
      for i := 0 to slots.Length
        invariant forall j :: 0 <= j < slots.Length ==>
                    slots[j] == if j < i then old(slots[j]).(valid := false) else old(slots[j])
      {
        slots[i] := slots[i].(valid := false);
      }
    }
  }

  /** Every non-empty cache has a victim. */
  function SomeVictim(s: seq<Slot>): (v: nat)
    requires s != []
    ensures IsVictim(s, v)
  {
    if |s| == 1 then 0
    else
      var n := |s| - 1;
      var v := SomeVictim(s[..n]);
      assert forall i :: 0 <= i < n ==> s[..n][i] == s[i];
      if Score(s[n]) < Score(s[v]) then n else v
  }
}
