/**
 The signal word of a notification (kernel/ipc/notification.c): any number of signallers
 set bits with an atomic or, and consumers read and then clear them with an atomic and.  The
 word is modelled as the set of its bit numbers; every access to it is one step.
 */
module Notification {

  /** What has happened to the word, in the order of the atomic accesses. */
  datatype Entry = Signalled(bits: set<nat>) | Reported(consumer: nat, bits: set<nat>)

  /** `held[c]`: what consumer c has read and not yet cleared. */
  datatype Word = Word(pending: set<nat>, held: map<nat, set<nat>>, log: seq<Entry>)

  datatype Access = Or(bits: set<nat>) | Load(consumer: nat, mask: set<nat>) | Clear(consumer: nat)

  /** A consumer that read nothing goes back, or to sleep, without clearing. */
  predicate Allowed(w: Word, a: Access) {
    match a
    case Or(bits) => bits != {}
    case Load(c, _) => c !in w.held
    case Clear(c) => c in w.held
  }

  function Apply(w: Word, a: Access): Word
    requires Allowed(w, a)
  {
    match a
    case Or(bits) => w.(pending := w.pending + bits, log := w.log + [Signalled(bits)])
    case Load(c, mask) =>
      if w.pending * mask == {} then w else w.(held := w.held[c := w.pending * mask])
    case Clear(c) =>
      Word(w.pending - w.held[c], w.held - {c}, w.log + [Reported(c, w.held[c])])
  }

  predicate SignalledAt(log: seq<Entry>, i: nat, b: nat) {
    i < |log| && log[i].Signalled? && b in log[i].bits
  }

  predicate ReportedAt(log: seq<Entry>, j: nat, b: nat) {
    j < |log| && log[j].Reported? && b in log[j].bits
  }

  /** No signal is lost: it is still pending, or a later report contains it. */
  ghost predicate NothingLost(w: Word) {
    forall i: nat, b: nat {:trigger SignalledAt(w.log, i, b)} :: SignalledAt(w.log, i, b) ==>
      b in w.pending || exists j: nat {:trigger ReportedAt(w.log, j, b)} :: i < j && ReportedAt(w.log, j, b)
  }

  /** Bit b was signalled at some place before n and not reported from there on. */
  ghost predicate NewSince(log: seq<Entry>, b: nat, n: nat) {
    exists i: nat {:trigger SignalledAt(log, i, b)} ::
      i < n && SignalledAt(log, i, b) && forall j: nat :: i < j < n ==> !ReportedAt(log, j, b)
  }

  ghost predicate NoneInvented(w: Word) {
    forall b: nat :: b in w.pending ==> NewSince(w.log, b, |w.log|)
  }

  /** Each report of a bit answers a signal of its own. */
  ghost predicate EachReportNew(w: Word) {
    forall j: nat, b: nat {:trigger ReportedAt(w.log, j, b)} :: ReportedAt(w.log, j, b) ==> NewSince(w.log, b, j)
  }

  /** Each bit is consumed by the one consumer that owns it. */
  ghost predicate HeldByOwner(w: Word, owner: map<nat, nat>) {
    forall c: nat, b: nat :: c in w.held && b in w.held[c] ==> b in w.pending && b in owner && owner[b] == c
  }

  ghost predicate LoadsOwn(a: Access, owner: map<nat, nat>) {
    a.Load? ==> forall b: nat :: b in a.mask ==> b in owner && owner[b] == a.consumer
  }

  lemma LogGrows(w: Word, a: Access)
    requires Allowed(w, a)
    ensures |w.log| <= |Apply(w, a).log| <= |w.log| + 1
    ensures forall i: nat, b: nat :: i < |w.log| ==>
              && SignalledAt(Apply(w, a).log, i, b) == SignalledAt(w.log, i, b)
              && ReportedAt(Apply(w, a).log, i, b) == ReportedAt(w.log, i, b)
  {
  }

  lemma KeepsNothingLost(w: Word, a: Access)
    requires Allowed(w, a) && NothingLost(w)
    ensures NothingLost(Apply(w, a))
  {
    var w' := Apply(w, a);
    LogGrows(w, a);
    forall i: nat, b: nat | SignalledAt(w'.log, i, b)
      ensures b in w'.pending || exists j: nat {:trigger ReportedAt(w'.log, j, b)} :: i < j && ReportedAt(w'.log, j, b)
    {
      if i < |w.log| {
        assert SignalledAt(w.log, i, b);
        if b in w.pending {
          assert b !in w'.pending ==> ReportedAt(w'.log, |w.log|, b);
        } else {
          var j: nat :| i < j && ReportedAt(w.log, j, b);
          assert ReportedAt(w'.log, j, b);
        }
      }
    }
  }

  /** NewSince looks only at the first n entries. */
  lemma NewSinceSame(log: seq<Entry>, log': seq<Entry>, b: nat, n: nat)
    requires NewSince(log, b, n)
    requires forall i: nat :: i < n ==> SignalledAt(log', i, b) == SignalledAt(log, i, b) &&
                                        ReportedAt(log', i, b) == ReportedAt(log, i, b)
    ensures NewSince(log', b, n)
    ensures !ReportedAt(log', n, b) ==> NewSince(log', b, n + 1)
  {
    var i: nat :| i < n && SignalledAt(log, i, b) && forall j: nat :: i < j < n ==> !ReportedAt(log, j, b);
    assert SignalledAt(log', i, b);
  }

  lemma ClearedIsNotNew(w: Word, log': seq<Entry>, b: nat)
    requires NothingLost(w) && b !in w.pending && w.log <= log'
    ensures !NewSince(log', b, |w.log|)
  {
    forall i: nat | i < |w.log| && SignalledAt(log', i, b)
      ensures exists j: nat {:trigger ReportedAt(log', j, b)} :: i < j < |w.log| && ReportedAt(log', j, b)
    {
      assert SignalledAt(w.log, i, b);
      var j: nat :| i < j && ReportedAt(w.log, j, b);
      assert ReportedAt(log', j, b);
    }
  }

  lemma KeepsNoneInvented(w: Word, a: Access)
    requires Allowed(w, a) && NoneInvented(w)
    ensures NoneInvented(Apply(w, a))
  {
    var w', n := Apply(w, a), |w.log|;
    LogGrows(w, a);
    forall b: nat | b in w'.pending ensures NewSince(w'.log, b, |w'.log|) {
      if b in w.pending {
        NewSinceSame(w.log, w'.log, b, n);
      } else {
        assert SignalledAt(w'.log, n, b);
      }
    }
  }

  /** The report that a clear makes answers new signals exactly when every bit it holds is
      pending at that moment: not cleared by another consumer since the load, or signalled
      again after that. */
  lemma ReportNewIff(w: Word, c: nat)
    requires Allowed(w, Clear(c)) && NothingLost(w) && NoneInvented(w) && EachReportNew(w)
    ensures EachReportNew(Apply(w, Clear(c))) <==> w.held[c] <= w.pending
  {
    var w', n := Apply(w, Clear(c)), |w.log|;
    LogGrows(w, Clear(c));
    if w.held[c] <= w.pending {
      forall j: nat, b: nat | ReportedAt(w'.log, j, b) ensures NewSince(w'.log, b, j) {
        if j < n {
          assert ReportedAt(w.log, j, b);
          NewSinceSame(w.log, w'.log, b, j);
        } else {
          NewSinceSame(w.log, w'.log, b, n);
        }
      }
    } else {
      var b :| b in w.held[c] && b !in w.pending;
      assert ReportedAt(w'.log, n, b);
      ClearedIsNotNew(w, w'.log, b);
    }
  }

  lemma KeepsEachReportNew(w: Word, a: Access, owner: map<nat, nat>)
    requires Allowed(w, a) && NothingLost(w) && NoneInvented(w) && EachReportNew(w)
    requires HeldByOwner(w, owner) && LoadsOwn(a, owner)
    ensures EachReportNew(Apply(w, a)) && HeldByOwner(Apply(w, a), owner)
  {
    var w' := Apply(w, a);
    if a.Clear? {
      ReportNewIff(w, a.consumer);
    } else {
      LogGrows(w, a);
      forall j: nat, b: nat | ReportedAt(w'.log, j, b) ensures NewSince(w'.log, b, j) {
        assert ReportedAt(w.log, j, b);
        NewSinceSame(w.log, w'.log, b, j);
      }
    }
  }

  ghost predicate WordRun(ws: seq<Word>, accesses: seq<Access>) {
    && |ws| == |accesses| + 1 && ws[0] == Word({}, map[], [])
    && forall k: nat :: k < |accesses| ==> Allowed(ws[k], accesses[k]) && ws[k + 1] == Apply(ws[k], accesses[k])
  }

  /** In every run, with any number of signallers and consumers, no signal is lost and every
      pending bit is a signal not yet reported.  When no two consumers read the same bit,
      each report of a bit answers a signal of its own. */
  lemma {:induction false} SignalsInEveryRun(ws: seq<Word>, accesses: seq<Access>, owner: map<nat, nat>, k: nat)
    requires WordRun(ws, accesses) && k <= |accesses|
    ensures NothingLost(ws[k]) && NoneInvented(ws[k])
    ensures (forall i: nat :: i < k ==> LoadsOwn(accesses[i], owner)) ==>
              EachReportNew(ws[k]) && HeldByOwner(ws[k], owner)
  {
    if k > 0 {
      SignalsInEveryRun(ws, accesses, owner, k - 1);
      KeepsNothingLost(ws[k - 1], accesses[k - 1]);
      KeepsNoneInvented(ws[k - 1], accesses[k - 1]);
      if forall i: nat :: i < k ==> LoadsOwn(accesses[i], owner) {
        KeepsEachReportNew(ws[k - 1], accesses[k - 1], owner);
      }
    }
  }

  /** Two consumers of one bit can both report a single signal. */
  lemma SharedBitReportedTwice(b: nat) returns (ws: seq<Word>, accesses: seq<Access>)
    ensures WordRun(ws, accesses) && !EachReportNew(ws[|accesses|])
  {
    accesses := [Or({b}), Load(0, {b}), Load(1, {b}), Clear(0), Clear(1)];
    var w0 := Word({}, map[], []);
    var w1 := Apply(w0, accesses[0]);
    assert w1.pending * {b} == {b};
    var w2 := Apply(w1, accesses[1]);
    var w3 := Apply(w2, accesses[2]);
    var w4 := Apply(w3, accesses[3]);
    var w5 := Apply(w4, accesses[4]);
    ws := [w0, w1, w2, w3, w4, w5];
    assert w5.log == [Signalled({b}), Reported(0, {b}), Reported(1, {b})];
    assert ReportedAt(w5.log, 1, b) && ReportedAt(w5.log, 2, b) && !SignalledAt(w5.log, 1, b);
  }

  // ---------------------------------------------------------------------------
  // The word and the log, told from the accesses
  // ---------------------------------------------------------------------------

  predicate SetsAt(accesses: seq<Access>, i: nat, b: nat) {
    i < |accesses| && accesses[i].Or? && b in accesses[i].bits
  }

  /** Load i of consumer c asked for bit b and found it set, and c has not cleared since. */
  ghost predicate ReadAt(ws: seq<Word>, accesses: seq<Access>, k: nat, c: nat, b: nat, i: nat)
    requires |ws| == |accesses| + 1 && k <= |accesses|
  {
    && i < k && accesses[i].Load? && accesses[i].consumer == c && b in accesses[i].mask && b in ws[i].pending
    && forall j: nat :: i < j < k ==> accesses[j] != Clear(c)
  }

  ghost predicate HasRead(ws: seq<Word>, accesses: seq<Access>, k: nat, c: nat, b: nat)
    requires |ws| == |accesses| + 1 && k <= |accesses|
  {
    exists i: nat :: ReadAt(ws, accesses, k, c, b, i)
  }

  /** Access j is the clear of a consumer that has read bit b. */
  ghost predicate TakesAt(ws: seq<Word>, accesses: seq<Access>, j: nat, b: nat)
    requires |ws| == |accesses| + 1
  {
    j < |accesses| && accesses[j].Clear? && HasRead(ws, accesses, j, accesses[j].consumer, b)
  }

  ghost predicate SetSince(ws: seq<Word>, accesses: seq<Access>, k: nat, b: nat, i: nat)
    requires |ws| == |accesses| + 1
  {
    i < k && SetsAt(accesses, i, b) && forall j: nat :: i < j < k ==> !TakesAt(ws, accesses, j, b)
  }

  ghost predicate StillSet(ws: seq<Word>, accesses: seq<Access>, k: nat, b: nat)
    requires |ws| == |accesses| + 1
  {
    exists i: nat :: SetSince(ws, accesses, k, b, i)
  }

  lemma HasReadNext(ws: seq<Word>, accesses: seq<Access>, k: nat, c: nat, b: nat)
    requires |ws| == |accesses| + 1 && k < |accesses|
    ensures HasRead(ws, accesses, k + 1, c, b) <==>
            || (HasRead(ws, accesses, k, c, b) && accesses[k] != Clear(c))
            || (accesses[k].Load? && accesses[k].consumer == c && b in accesses[k].mask && b in ws[k].pending)
  {
    if HasRead(ws, accesses, k + 1, c, b) {
      var i: nat :| ReadAt(ws, accesses, k + 1, c, b, i);
      assert i < k ==> ReadAt(ws, accesses, k, c, b, i);
    }
    if HasRead(ws, accesses, k, c, b) && accesses[k] != Clear(c) {
      var i: nat :| ReadAt(ws, accesses, k, c, b, i);
      assert ReadAt(ws, accesses, k + 1, c, b, i);
    }
    if accesses[k].Load? && accesses[k].consumer == c && b in accesses[k].mask && b in ws[k].pending {
      assert ReadAt(ws, accesses, k + 1, c, b, k);
    }
  }

  lemma StillSetNext(ws: seq<Word>, accesses: seq<Access>, k: nat, b: nat)
    requires |ws| == |accesses| + 1 && k < |accesses|
    ensures StillSet(ws, accesses, k + 1, b) <==>
            SetsAt(accesses, k, b) || (StillSet(ws, accesses, k, b) && !TakesAt(ws, accesses, k, b))
  {
    if StillSet(ws, accesses, k + 1, b) {
      var i: nat :| SetSince(ws, accesses, k + 1, b, i);
      assert i < k ==> SetSince(ws, accesses, k, b, i) && !TakesAt(ws, accesses, k, b);
    }
    if SetsAt(accesses, k, b) {
      assert SetSince(ws, accesses, k + 1, b, k);
    }
    if StillSet(ws, accesses, k, b) && !TakesAt(ws, accesses, k, b) {
      var i: nat :| SetSince(ws, accesses, k, b, i);
      assert SetSince(ws, accesses, k + 1, b, i);
    }
  }

  lemma HeldNext(w: Word, a: Access, c: nat, b: nat)
    requires Allowed(w, a)
    ensures var w' := Apply(w, a);
            c in w'.held && b in w'.held[c] <==>
            || (c in w.held && b in w.held[c] && a != Clear(c))
            || (a.Load? && a.consumer == c && b in a.mask && b in w.pending)
  {
    if a.Load? {
      assert b in w.pending * a.mask <==> b in w.pending && b in a.mask;
    }
  }

  /** In every run a consumer holds exactly the bits that its last load asked for and found. */
  lemma {:induction false} HeldIff(ws: seq<Word>, accesses: seq<Access>, k: nat, c: nat, b: nat)
    requires WordRun(ws, accesses) && k <= |accesses|
    ensures HasRead(ws, accesses, k, c, b) <==> c in ws[k].held && b in ws[k].held[c]
  {
    if k > 0 {
      HeldIff(ws, accesses, k - 1, c, b);
      HasReadNext(ws, accesses, k - 1, c, b);
      assert Allowed(ws[k - 1], accesses[k - 1]) && ws[k] == Apply(ws[k - 1], accesses[k - 1]);
      HeldNext(ws[k - 1], accesses[k - 1], c, b);
    }
  }

  /** In every run a bit is pending if and only if some signal set it and no consumer that had
      read it has cleared since. */
  lemma {:induction false} PendingIff(ws: seq<Word>, accesses: seq<Access>, k: nat, b: nat)
    requires WordRun(ws, accesses) && k <= |accesses|
    ensures b in ws[k].pending <==> StillSet(ws, accesses, k, b)
  {
    if k > 0 {
      var a := accesses[k - 1];
      PendingIff(ws, accesses, k - 1, b);
      assert Allowed(ws[k - 1], a) && ws[k] == Apply(ws[k - 1], a);
      if a.Clear? {
        HeldIff(ws, accesses, k - 1, a.consumer, b);
      }
      StillSetNext(ws, accesses, k - 1, b);
    }
  }

  /** In every run each signal logs its bits, each clear logs the bits its consumer has read,
      and nothing else is logged. */
  lemma LogInEveryRun(ws: seq<Word>, accesses: seq<Access>, k: nat)
    requires WordRun(ws, accesses) && k < |accesses|
    ensures match accesses[k]
            case Or(bits) => ws[k + 1].log == ws[k].log + [Signalled(bits)]
            case Load(_, _) => ws[k + 1].log == ws[k].log
            case Clear(c) =>
              exists bits: set<nat> :: ws[k + 1].log == ws[k].log + [Reported(c, bits)]
                && forall b: nat :: b in bits <==> HasRead(ws, accesses, k, c, b)
  {
    assert Allowed(ws[k], accesses[k]) && ws[k + 1] == Apply(ws[k], accesses[k]);
    if accesses[k].Clear? {
      var c := accesses[k].consumer;
      var bits := ws[k].held[c];
      forall b: nat ensures b in bits <==> HasRead(ws, accesses, k, c, b) {
        HeldIff(ws, accesses, k, c, b);
      }
      assert ws[k + 1].log == ws[k].log + [Reported(c, bits)];
    }
  }
}
