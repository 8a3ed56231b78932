/** Whole runs of the server: what it stores, and what a follower of its log has. */
module Replication {
  import opened Store
  import opened Binlog
  import Server

  /** One request through its handler, under the configuration of the moment; a batch is prepared
      against the store, then committed. */
  method Execute(s: Server.Server, e: Event)
    requires s.Valid()
    modifies s
    ensures s.Valid() && s.start == old(s.start) && old(s.binlog) <= s.binlog
    ensures s.State() == Step(e.cfg, old(s.State()), e.op, e.now)
  {
    s.Configure(e.cfg);
    match e.op {
      case OpAdd(c, r) =>
        var _, _ := s.AddDocument(c, r, e.now);
      case OpUpdate(c, k, l, p) =>
        var _ := s.UpdateDocument(c, k, l, p, e.now);
      case OpBatchAdd(c, rs) =>
        var _, _, _, _ := s.CommitBatch(c, ProcessAll(s.cfg, s.State(), c, rs, e.now), e.now);
      case OpDelete(c, k, l) =>
        var _ := s.DeleteOne(c, k, l);
      case OpBatchDelete(c, ns) =>
        var _, _, _ := s.DeleteBatch(c, ns);
      case OpDeleteCollection(c) =>
        var _ := s.DeleteAll(c);
      case OpTruncate(c, keep) =>
        s.TruncateAll(c, keep);
    }
  }

  /** After any run, from any buckets, the leader's buckets are those the transactions give one
      after the other, and a follower that replays the log has the same: from the buckets it
      started with, and from a snapshot of the leader's when the run began. */
  method ExecuteAll(s: Server.Server, run: seq<Event>)
    requires s.Valid()
    modifies s
    ensures s.Valid() && s.start == old(s.start)
    ensures s.State() == After(old(s.State()), run, |run|)
    ensures Replay(s.start, s.binlog) == s.State()
    ensures old(s.binlog) <= s.binlog
    ensures Replay(old(s.State()), s.binlog[|old(s.binlog)|..]) == s.State()
  {
    for i := 0 to |run|
      invariant s.Valid() && s.start == old(s.start) && old(s.binlog) <= s.binlog
      invariant s.State() == After(old(s.State()), run, i)
    {
      Execute(s, run[i]);
    }
    ghost var shared, news := old(s.binlog), s.binlog[|old(s.binlog)|..];
    assert s.binlog == shared + news;
    ReplayJoined(s.start, shared, news);
  }
}
