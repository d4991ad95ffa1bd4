// Where the parts meet: what the sequencer guarantees is what the write path and
// the table rely on.
module EndToEnd {
  import opened Records
  import opened Upsert
  import opened Sequencer
  import opened WritePath

  /** Of what a writer publishes, the sidecar accepts exactly the entries with a
      map name, given that the writer has an id: every other demand is met by the
      sequencer. An entry without a map name is acknowledged and then rejected. */
  lemma PublishedAcceptedIff(writer: string, es: seq<Entry>, reqs: seq<(int, int)>, i: nat)
    requires WriterLog(writer, es, reqs) && i < |es|
    ensures Accepted(es[i]) <==> es[i].dmap != "" && writer != ""
  {
    PublishedPositive(START, reqs, writer);
    PublishedWriter(START, reqs, writer);
    assert es[i].fence in Published(START, reqs, writer);
  }

  /** es are the entries one writer published for the windows it requested. */
  ghost predicate WriterLog(writer: string, es: seq<Entry>, reqs: seq<(int, int)>) {
    var fences := Published(START, reqs, writer);
    |es| == |fences| && forall i :: 0 <= i < |es| ==> es[i].fence == fences[i]
  }

  /** Acknowledged entries of one writer, each stamped once, and appended per key in
      stamp order, satisfy the order the write path needs. */
  lemma StampOrderIsAckOrder(writer: string, log: seq<Entry>, reqs: seq<(int, int)>, acked: seq<Entry>, at: seq<nat>)
    requires WriterLog(writer, log, reqs) && writer != "" && |at| == |acked|
    requires forall i :: 0 <= i < |acked| ==> at[i] < |log| && acked[i] == log[at[i]]
    requires forall i, j :: 0 <= i < j < |acked| ==> at[i] != at[j]
    requires forall i, j :: 0 <= i < j < |acked| && acked[i].RefOf() == acked[j].RefOf() ==> at[i] < at[j]
    ensures AckOrdered(acked)
  {
    hide Newer;
    var fences := Published(START, reqs, writer);
    PublishedIncreases(START, reqs, writer);
    PublishedPositive(START, reqs, writer);
    PublishedWriter(START, reqs, writer);
    forall i | 0 <= i < |acked|
      ensures Fenced(acked[i])
    {
      assert acked[i].fence in fences;
    }
    forall i, j | 0 <= i < |fences| && 0 <= j < |fences| && i != j
      ensures fences[i] != fences[j]
    {
      NewerTotal(fences[i], fences[j]);
    }
  }

  ghost predicate PublishedBy(r: Record, logs: map<string, seq<Entry>>, w: string, i: nat) {
    w in logs && i < |logs[w]| && r == RecordFromEntry(logs[w][i])
  }

  /** Records published by any number of writers with distinct ids have unique fences. */
  lemma PublishedRecordsUnique(logs: map<string, seq<Entry>>, reqs: map<string, seq<(int, int)>>, rs: seq<Record>)
    requires logs.Keys == reqs.Keys && forall w :: w in logs ==> WriterLog(w, logs[w], reqs[w])
    requires forall r :: r in rs ==> exists w: string, i: nat :: PublishedBy(r, logs, w, i)
    ensures UniqueFences(map[], rs)
  {
    hide Newer;
    forall k, a: Record, b: Record | a in Candidates(map[], rs, k) && b in Candidates(map[], rs, k)
        && a.FenceOf() == b.FenceOf()
      ensures a == b
    {
      var wa: string, i: nat :| PublishedBy(a, logs, wa, i);
      var wb: string, j: nat :| PublishedBy(b, logs, wb, j);
      PublishedWriter(START, reqs[wa], wa);
      PublishedWriter(START, reqs[wb], wb);
      var fences := Published(START, reqs[wa], wa);
      assert logs[wa][i].fence in fences && logs[wb][j].fence in Published(START, reqs[wb], wb);
      assert wa == wb;
      PublishedIncreases(START, reqs[wa], wa);
      NewerTotal(fences[i], fences[j]);
      assert i == j;
    }
  }

  /** So a table fed by all those writers does not depend on the order, the
      duplication or the batching in which their flushes arrive. */
  lemma TablesConverge(logs: map<string, seq<Entry>>, reqs: map<string, seq<(int, int)>>, a: seq<Record>,
                       b: seq<Record>)
    requires logs.Keys == reqs.Keys && forall w :: w in logs ==> WriterLog(w, logs[w], reqs[w])
    requires forall r :: r in a ==> exists w: string, i: nat :: PublishedBy(r, logs, w, i)
    requires forall r :: r in a <==> r in b
    ensures UpsertAll(map[], a) == UpsertAll(map[], b)
  {
    PublishedRecordsUnique(logs, reqs, a);
    FoldOrderIndependent(map[], a, b);
  }
}
