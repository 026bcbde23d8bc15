// Concurrent senders in one conversation. Reading max+1 and inserting are separate
// statements of a transaction, no lock is taken, and only the unique constraint on
// (conversation, sequence_number) decides who aborts.

module SequenceRace {
  import opened Wrappers

  type TxnId = nat

  /**
   * An open transaction: the number it read, if it has not used it yet, and the numbers
   * of the rows it inserted and has not committed. Calls that post several system
   * messages read and insert repeatedly in one transaction.
   */
  datatype Txn = Txn(read: Option<nat>, inserted: seq<nat>)

  /** `cached` is the number of the message the committed last-message fields describe. */
  datatype State = State(committed: seq<nat>, cached: nat, open: map<TxnId, Txn>)

  const START := State([], 0, map[])

  function Max(numbers: seq<nat>): nat {
    if numbers == [] then 0
    else
      var rest := Max(numbers[..|numbers| - 1]);
      if numbers[|numbers| - 1] > rest then numbers[|numbers| - 1] else rest
  }

  /** Another open transaction holds an uncommitted row with this number: the insert waits. */
  predicate Blocked(s: State, t: TxnId, n: nat) {
    exists u <- s.open :: u != t && n in s.open[u].inserted
  }

  datatype Statement = Begin | Read | Insert | Commit | Abort

  /** One statement of transaction `t`; a statement that is not possible now does nothing. */
  function Exec(s: State, t: TxnId, st: Statement): State {
    if st.Begin? then
      if t in s.open then s else s.(open := s.open[t := Txn(None, [])])
    else if t !in s.open then s
    else
      var txn := s.open[t];
      match st
      case Begin => s
      // sees committed rows and the transaction's own
      case Read => s.(open := s.open[t := txn.(read := Some(Max(s.committed + txn.inserted) + 1))])
      case Insert =>
        if txn.read.None? then s
        else if txn.read.value in s.committed || txn.read.value in txn.inserted then s.(open := s.open - {t})
        else if Blocked(s, t, txn.read.value) then s
        else s.(open := s.open[t := Txn(None, txn.inserted + [txn.read.value])])
      case Commit =>
        s.(committed := s.committed + txn.inserted,
           cached := if txn.inserted == [] then s.cached else txn.inserted[|txn.inserted| - 1],
           open := s.open - {t})
      case Abort => s.(open := s.open - {t})
  }

  datatype Event = Event(txn: TxnId, statement: Statement)

  function Run(events: seq<Event>): State {
    if events == [] then START
    else
      var last := events[|events| - 1];
      Exec(Run(events[..|events| - 1]), last.txn, last.statement)
  }

  // -------------------------------------------------------------- invariant

  /** base+1, base+2, ... */
  ghost predicate Block(numbers: seq<nat>, base: nat) {
    forall i :: 0 <= i < |numbers| ==> numbers[i] == base + 1 + i
  }

  ghost predicate TxnSound(m: nat, txn: Txn) {
    && Block(txn.inserted, m)
    && (txn.read.Some? ==> 1 <= txn.read.value <= m + |txn.inserted| + 1)
  }

  ghost predicate Inv(s: State) {
    && Block(s.committed, 0)
    && s.cached == |s.committed|
    && (forall t <- s.open :: TxnSound(|s.committed|, s.open[t]))
    // at most one transaction has uncommitted rows
    && forall t, u :: t in s.open && u in s.open && t != u ==> s.open[t].inserted == [] || s.open[u].inserted == []
  }

  lemma {:induction false} MaxOfBlock(numbers: seq<nat>, base: nat)
    requires Block(numbers, base) && numbers != []
    ensures Max(numbers) == base + |numbers|
  {
    var init := numbers[..|numbers| - 1];
    if init != [] {
      MaxOfBlock(init, base);
    }
  }

  lemma BlockMembers(numbers: seq<nat>, base: nat)
    requires Block(numbers, base)
    ensures forall n: nat :: n in numbers <==> base < n <= base + |numbers|
  {
    forall n: nat | base < n <= base + |numbers| ensures n in numbers {
      assert numbers[n - base - 1] == n;
    }
  }

  /** What a read returns: one more than everything committed or inserted by the reader. */
  lemma ReadsNext(s: State, t: TxnId)
    requires Inv(s) && t in s.open
    ensures Max(s.committed + s.open[t].inserted) == |s.committed| + |s.open[t].inserted|
  {
    assert TxnSound(|s.committed|, s.open[t]);
    var all := s.committed + s.open[t].inserted;
    if all != [] {
      MaxOfBlock(all, 0);
    }
  }

  /** An insert that is neither refused nor blocked takes the next number, and nobody else holds rows. */
  lemma InsertTakesNext(s: State, t: TxnId)
    requires Inv(s) && t in s.open && s.open[t].read.Some?
    ensures
      var n := s.open[t].read.value;
      n !in s.committed && n !in s.open[t].inserted ==>
        && n == |s.committed| + |s.open[t].inserted| + 1
        && (!Blocked(s, t, n) ==> forall u <- s.open :: u != t ==> s.open[u].inserted == [])
  {
    var m, txn := |s.committed|, s.open[t];
    var n := txn.read.value;
    assert TxnSound(m, txn);
    BlockMembers(s.committed, 0);
    BlockMembers(txn.inserted, m);
    forall u | u in s.open ensures forall k: nat :: k in s.open[u].inserted <==> m < k <= m + |s.open[u].inserted| {
      assert TxnSound(m, s.open[u]);
      BlockMembers(s.open[u].inserted, m);
    }
  }

  lemma InsertKeepsInv(s: State, t: TxnId)
    requires Inv(s)
    ensures Inv(Exec(s, t, Insert))
  {
    if t in s.open && s.open[t].read.Some? {
      InsertTakesNext(s, t);
      assert TxnSound(|s.committed|, s.open[t]);
    }
  }

  lemma CommitKeepsInv(s: State, t: TxnId)
    requires Inv(s)
    ensures Inv(Exec(s, t, Commit))
  {
    if t in s.open {
      var d := Exec(s, t, Commit);
      assert TxnSound(|s.committed|, s.open[t]);
      forall u | u in d.open ensures TxnSound(|d.committed|, d.open[u]) {
        assert TxnSound(|s.committed|, s.open[u]);
        if s.open[t].inserted != [] {
          assert s.open[u].inserted == [];
        }
      }
    }
  }

  lemma ExecKeepsInv(s: State, t: TxnId, st: Statement)
    requires Inv(s)
    ensures Inv(Exec(s, t, st))
  {
    match st
    case Insert => InsertKeepsInv(s, t);
    case Commit => CommitKeepsInv(s, t);
    case Read =>
      if t in s.open {
        ReadsNext(s, t);
        assert TxnSound(|s.committed|, s.open[t]);
      }
    case _ =>
  }

  /**
   * Under every interleaving, the committed sequence numbers are exactly 1..n, each once,
   * and the committed cache names number n.
   */
  lemma {:induction false} CommittedNumbersAreGapFree(events: seq<Event>)
    ensures Inv(Run(events))
    ensures
      var s := Run(events);
      (forall i :: 0 <= i < |s.committed| ==> s.committed[i] == i + 1) && s.cached == |s.committed|
  {
    if events != [] {
      var last := events[|events| - 1];
      CommittedNumbersAreGapFree(events[..|events| - 1]);
      ExecKeepsInv(Run(events[..|events| - 1]), last.txn, last.statement);
    }
  }

  /**
   * An insert aborts exactly when some number at or above the one read has been committed
   * or inserted since the read; until then it proceeds or waits, and whoever it waits for
   * is not itself waiting.
   */
  lemma WhoAborts(s: State, t: TxnId)
    requires Inv(s) && t in s.open && s.open[t].read.Some?
    ensures t !in Exec(s, t, Insert).open <==> s.open[t].read.value <= |s.committed| + |s.open[t].inserted|
    ensures forall u <- s.open :: u != t && s.open[u].inserted != [] && s.open[u].read.Some? ==>
      !Blocked(s, u, s.open[u].read.value)
  {
    var m, txn := |s.committed|, s.open[t];
    var n := txn.read.value;
    assert TxnSound(m, txn);
    BlockMembers(s.committed, 0);
    BlockMembers(txn.inserted, m);
  }
}
