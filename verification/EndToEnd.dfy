/**
 From the processor to a client: what a quorum read shows of a processor's flushes.
 */
module EndToEnd {
  import opened VectorClock
  import opened StatKey
  import BigEndian
  import opened Addresses
  import Quorum
  import FlushClock

  /** Every submitted version of the key was stamped within one processor lifetime. */
  ghost predicate FromOneLifetime(writes: seq<Quorum.WriteOp>, k: Key, flushes: seq<Clock>) {
    forall e | Quorum.Wrote(writes, e) && EntryKey(e) == k :: exists x :: 0 <= x < |flushes| && e.clock == flushes[x]
  }

  /** Once a write of flush `f` has been acknowledged, every later quorum read of its key shows
      flush `f` or a later one, for every interleaving of coordinators, dead peers, stragglers
      and other flushes. */
  lemma {:induction false} ReadsNeverGoBehindAFlush(cl: Quorum.Cluster, run: seq<Quorum.Step>, k: nat, i: nat,
                                                    node: seq<BigEndian.byte>, ops: seq<FlushClock.Op>, f: nat) returns (g: nat)
    requires cl.Valid() && Quorum.Exec(cl, run).Some?
    requires Quorum.Owes(cl, Quorum.Exec(cl, run).value, k, i)
    requires var r := Quorum.Exec(cl, run).value.queries[k]; r.responses >= Quorum.Need(r.owners, Quorum.READ_QUORUM)
    requires var s, flushes := Quorum.Exec(cl, run).value, FlushClock.Lifetime(node, ops).flushes;
      && FromOneLifetime(s.writes, Quorum.ReadKey(s.queries[k].req), flushes)
      && f < |flushes| && s.writes[i].entry.clock == flushes[f]
    ensures var r, flushes := Quorum.Exec(cl, run).value.queries[k], FlushClock.Lifetime(node, ops).flushes;
      r.best.Some? && f <= g < |flushes| && r.best.value.clock == flushes[g]
  {
    hide Quorum.Exec, AtLeast, FlushClock.Lifetime, Quorum.Wrote;
    var s, flushes := Quorum.Exec(cl, run).value, FlushClock.Lifetime(node, ops).flushes;
    Quorum.QuorumReadIsFresh(cl, run, k, i);
    var best, entry := s.queries[k].best.value, s.writes[i].entry;
    var x :| 0 <= x < |flushes| && best.clock == flushes[x];
    g := x;
    if x < f { FlushClock.LaterFlushWins(node, ops, x, f, best, entry); }
  }

  /** The same without counting responses: it is enough that the read is finished and that at
      least min(2, n) owners answer whenever it asks them. */
  lemma {:induction false} FinishedReadsNeverGoBehindAFlush(cl: Quorum.Cluster, run: seq<Quorum.Step>, k: nat, i: nat, rs: set<Addr>,
                                                            node: seq<BigEndian.byte>, ops: seq<FlushClock.Op>, f: nat) returns (g: nat)
    requires cl.Valid() && Quorum.Exec(cl, run).Some?
    requires Quorum.Owes(cl, Quorum.Exec(cl, run).value, k, i) && Quorum.Exec(cl, run).value.queries[k].Over()
    requires var r := Quorum.Exec(cl, run).value.queries[k];
      (forall a <- rs :: a in r.owners) && |rs| >= Quorum.Need(r.owners, Quorum.READ_QUORUM)
    requires Quorum.AnswersAlways(cl, run, k, rs)
    requires var s, flushes := Quorum.Exec(cl, run).value, FlushClock.Lifetime(node, ops).flushes;
      && FromOneLifetime(s.writes, Quorum.ReadKey(s.queries[k].req), flushes)
      && f < |flushes| && s.writes[i].entry.clock == flushes[f]
    ensures var r, flushes := Quorum.Exec(cl, run).value.queries[k], FlushClock.Lifetime(node, ops).flushes;
      r.best.Some? && f <= g < |flushes| && r.best.value.clock == flushes[g]
  {
    hide Quorum.Exec, Quorum.AnswersAlways, FlushClock.Lifetime, FromOneLifetime;
    Quorum.FinishedReadHasQuorum(cl, run, k, rs);
    g := ReadsNeverGoBehindAFlush(cl, run, k, i, node, ops, f);
  }
}
