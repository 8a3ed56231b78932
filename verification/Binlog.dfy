/** The operation log a leader writes and a follower applies
    (services/mddbd/internal/binlog/binlog_entry.go, services/mddbd/replication_applier.go). */
module Binlog {
  import opened ByteStrings
  import opened Store

  datatype LogOp =
    | PutDocOp(key: string, doc: Doc)
    | PutKeyOp(key: string, id: string)
    | PutIndexOp(key: string)
    | PutRevOp(key: string, doc: Doc)
    | DelDocOp(key: string)
    | DelKeyOp(key: string)
    | DelIndexOp(key: string)
    | DelRevOp(key: string)

  function Apply(s: Buckets, op: LogOp): Buckets {
    match op
    case PutDocOp(k, d) => s.(docs := s.docs[k := d])
    case PutKeyOp(k, id) => s.(byKey := s.byKey[k := id])
    case PutIndexOp(k) => s.(idx := s.idx + {k})
    case PutRevOp(k, d) => s.(rev := s.rev[k := d])
    case DelDocOp(k) => s.(docs := s.docs - {k})
    case DelKeyOp(k) => s.(byKey := s.byKey - {k})
    case DelIndexOp(k) => s.(idx := s.idx - {k})
    case DelRevOp(k) => s.(rev := s.rev - {k})
  }

  /** The buckets after applying a log in order. */
  function Replay(s: Buckets, ops: seq<LogOp>): Buckets {
    if ops == [] then s else Apply(Replay(s, ops[..|ops| - 1]), ops[|ops| - 1])
  }

  lemma ReplayOneMore(s: Buckets, ops: seq<LogOp>, op: LogOp)
    ensures Replay(s, ops + [op]) == Apply(Replay(s, ops), op)
  {
    assert (ops + [op])[..|ops|] == ops;
  }

  /** Applying two batches in turn is applying them joined. */
  lemma {:induction false} ReplayJoined(s: Buckets, a: seq<LogOp>, b: seq<LogOp>)
    ensures Replay(s, a + b) == Replay(Replay(s, a), b)
    decreases |b|
  {
    if b == [] {
      assert a + b == a;
    } else {
      var front, last := b[..|b| - 1], b[|b| - 1];
      ReplayJoined(s, a, front);
      assert a + b == (a + front) + [last];
      ReplayOneMore(s, a + front, last);
    }
  }

  // ---- two handlers that flush in the other order than they committed ----------------------------

  /** One place in the buckets, and what it can hold. */
  datatype Slot = DocSlot(key: string) | KeySlot(key: string) | IndexSlot(key: string) | RevSlot(key: string)
  datatype Value = Record(doc: Doc) | Id(id: string) | Mark

  function SlotOf(op: LogOp): Slot {
    match op
    case PutDocOp(k, _) => DocSlot(k)
    case DelDocOp(k) => DocSlot(k)
    case PutKeyOp(k, _) => KeySlot(k)
    case DelKeyOp(k) => KeySlot(k)
    case PutIndexOp(k) => IndexSlot(k)
    case DelIndexOp(k) => IndexSlot(k)
    case PutRevOp(k, _) => RevSlot(k)
    case DelRevOp(k) => RevSlot(k)
  }

  /** What an edit leaves in its slot. */
  function Left(op: LogOp): Option<Value> {
    match op
    case PutDocOp(_, d) => Some(Record(d))
    case PutKeyOp(_, id) => Some(Id(id))
    case PutIndexOp(_) => Some(Mark)
    case PutRevOp(_, d) => Some(Record(d))
    case _ => None
  }

  function Held(s: Buckets, slot: Slot): Option<Value> {
    match slot
    case DocSlot(k) => if k in s.docs then Some(Record(s.docs[k])) else None
    case KeySlot(k) => if k in s.byKey then Some(Id(s.byKey[k])) else None
    case IndexSlot(k) => if k in s.idx then Some(Mark) else None
    case RevSlot(k) => if k in s.rev then Some(Record(s.rev[k])) else None
  }

  /** What the last edit of a slot leaves there; `None` when no edit touches it. */
  function LastLeft(ops: seq<LogOp>, slot: Slot): Option<Option<Value>> {
    if ops == [] then None
    else if SlotOf(ops[|ops| - 1]) == slot then Some(Left(ops[|ops| - 1]))
    else LastLeft(ops[..|ops| - 1], slot)
  }

  lemma {:induction false} HeldAfter(s: Buckets, ops: seq<LogOp>, slot: Slot)
    ensures Held(Replay(s, ops), slot) == if LastLeft(ops, slot).Some? then LastLeft(ops, slot).value else Held(s, slot)
  {
    if ops != [] {
      HeldAfter(s, ops[..|ops| - 1], slot);
    }
  }

  lemma SlotsTell(s: Buckets, t: Buckets)
    requires forall slot :: Held(s, slot) == Held(t, slot)
    ensures s == t
  {
    forall k ensures (k in s.docs <==> k in t.docs) && (k in s.docs ==> s.docs[k] == t.docs[k]) {
      assert Held(s, DocSlot(k)) == Held(t, DocSlot(k));
    }
    forall k ensures (k in s.byKey <==> k in t.byKey) && (k in s.byKey ==> s.byKey[k] == t.byKey[k]) {
      assert Held(s, KeySlot(k)) == Held(t, KeySlot(k));
    }
    forall k ensures k in s.idx <==> k in t.idx {
      assert Held(s, IndexSlot(k)) == Held(t, IndexSlot(k));
    }
    forall k ensures (k in s.rev <==> k in t.rev) && (k in s.rev ==> s.rev[k] == t.rev[k]) {
      assert Held(s, RevSlot(k)) == Held(t, RevSlot(k));
    }
    assert s.docs == t.docs && s.byKey == t.byKey && s.idx == t.idx && s.rev == t.rev;
  }

  /** Two transactions leave the same in every slot both of them edit. */
  ghost predicate Agreeing(a: seq<LogOp>, b: seq<LogOp>) {
    forall slot {:trigger LastLeft(a, slot)} ::
      LastLeft(a, slot).Some? && LastLeft(b, slot).Some? ==> LastLeft(a, slot) == LastLeft(b, slot)
  }

  /** When two handlers commit in one order and flush in the other, the follower comes out right
      exactly when their transactions leave the same wherever they meet. */
  lemma SwappedFlushIff(s: Buckets, a: seq<LogOp>, b: seq<LogOp>)
    ensures Replay(s, b + a) == Replay(s, a + b) <==> Agreeing(a, b)
  {
    ReplayJoined(s, a, b);
    ReplayJoined(s, b, a);
    forall slot
      ensures Held(Replay(s, a + b), slot) == Held(Replay(s, b + a), slot) <==>
              (LastLeft(a, slot).Some? && LastLeft(b, slot).Some? ==> LastLeft(a, slot) == LastLeft(b, slot))
    {
      HeldAfter(Replay(s, a), b, slot);
      HeldAfter(Replay(s, b), a, slot);
      HeldAfter(s, a, slot);
      HeldAfter(s, b, slot);
    }
    if Agreeing(a, b) {
      SlotsTell(Replay(s, a + b), Replay(s, b + a));
    }
  }

  // ---- any number of handlers ------------------------------------------------------------------------

  function Flatten(ts: seq<seq<LogOp>>): seq<LogOp> {
    if ts == [] then [] else Flatten(ts[..|ts| - 1]) + ts[|ts| - 1]
  }

  /** What the last transaction that edits a slot leaves there. */
  function LastWrite(ts: seq<seq<LogOp>>, slot: Slot): Option<Option<Value>> {
    if ts == [] then None
    else if LastLeft(ts[|ts| - 1], slot).Some? then LastLeft(ts[|ts| - 1], slot)
    else LastWrite(ts[..|ts| - 1], slot)
  }

  ghost predicate SameLastWrites(ts: seq<seq<LogOp>>, us: seq<seq<LogOp>>) {
    forall slot {:trigger LastWrite(ts, slot)} :: LastWrite(ts, slot) == LastWrite(us, slot)
  }

  lemma {:induction false} LastLeftJoined(a: seq<LogOp>, b: seq<LogOp>, slot: Slot)
    ensures LastLeft(a + b, slot) == if LastLeft(b, slot).Some? then LastLeft(b, slot) else LastLeft(a, slot)
    decreases |b|
  {
    if b == [] {
      assert a + b == a;
    } else {
      var front := b[..|b| - 1];
      LastLeftJoined(a, front, slot);
      assert (a + b)[..|a + b| - 1] == a + front;
    }
  }

  lemma {:induction false} LastWriteIsLast(ts: seq<seq<LogOp>>, slot: Slot)
    ensures LastLeft(Flatten(ts), slot) == LastWrite(ts, slot)
    ensures LastWrite(ts, slot).Some? <==> exists t :: t in ts && LastLeft(t, slot).Some?
  {
    if ts != [] {
      var front, last := ts[..|ts| - 1], ts[|ts| - 1];
      assert ts == front + [last];
      LastWriteIsLast(front, slot);
      LastLeftJoined(Flatten(front), last, slot);
      assert LastLeft(last, slot).Some? ==> last in ts;
      if t :| t in ts && LastLeft(t, slot).Some? {
        assert t in front || t == last;
      }
      if t :| t in front && LastLeft(t, slot).Some? {
        assert t in ts;
      }
    }
  }

  /** Transactions committed in one order and logged in any other: a follower of the log comes out as
      the leader exactly when in every slot the last transaction to commit and the last one logged
      leave the same. */
  lemma FlushOrderIff(s: Buckets, committed: seq<seq<LogOp>>, logged: seq<seq<LogOp>>)
    requires multiset(committed) == multiset(logged)
    ensures Replay(s, Flatten(logged)) == Replay(s, Flatten(committed)) <==> SameLastWrites(committed, logged)
  {
    var a, b := Flatten(committed), Flatten(logged);
    if Replay(s, a) == Replay(s, b) {
      forall slot ensures LastWrite(committed, slot) == LastWrite(logged, slot) {
        SlotIff(s, committed, logged, slot);
      }
    }
    if SameLastWrites(committed, logged) {
      forall slot ensures Held(Replay(s, a), slot) == Held(Replay(s, b), slot) {
        SlotIff(s, committed, logged, slot);
        assert LastWrite(committed, slot) == LastWrite(logged, slot);
      }
      SlotsTell(Replay(s, a), Replay(s, b));
    }
  }

  lemma SlotIff(s: Buckets, committed: seq<seq<LogOp>>, logged: seq<seq<LogOp>>, slot: Slot)
    requires multiset(committed) == multiset(logged)
    ensures Held(Replay(s, Flatten(committed)), slot) == Held(Replay(s, Flatten(logged)), slot) <==>
            LastWrite(committed, slot) == LastWrite(logged, slot)
  {
    SameWriters(committed, logged, slot);
    LastWriteIsLast(committed, slot);
    LastWriteIsLast(logged, slot);
    HeldAfter(s, Flatten(committed), slot);
    HeldAfter(s, Flatten(logged), slot);
  }

  lemma SameWriters(ts: seq<seq<LogOp>>, us: seq<seq<LogOp>>, slot: Slot)
    requires multiset(ts) == multiset(us)
    ensures LastWrite(ts, slot).Some? <==> LastWrite(us, slot).Some?
  {
    LastWriteIsLast(ts, slot);
    LastWriteIsLast(us, slot);
    forall t ensures t in ts <==> t in us {
      assert t in ts <==> t in multiset(ts);
      assert t in us <==> t in multiset(us);
    }
  }

  /** A follower applies a received batch entry by entry. */
  method ApplyBatch(s: Buckets, entries: seq<LogOp>) returns (t: Buckets)
    ensures t == Replay(s, entries)
  {
    t := s;
    for i := 0 to |entries|
      invariant t == Replay(s, entries[..i])
    {
      assert entries[..i + 1] == entries[..i] + [entries[i]];
      ReplayOneMore(s, entries[..i], entries[i]);
      t := Apply(t, entries[i]);
    }
    assert entries[..|entries|] == entries;
  }
}
