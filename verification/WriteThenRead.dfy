// One write all the way through: the hook publishes it, the sidecar drains it, and a
// miss-path load reads it back.
module WriteThenRead {
  import opened Bytes
  import opened Records
  import opened OplogSize
  import opened PendingSet
  import opened Sidecar
  import opened DurableHook
  import RingLayout
  import SharedRing

  /** Decoding undoes encoding, and rejects what the sidecar does not accept. */
  ghost predicate Codec(encode: Entry -> Option<Payload>, decode: Decoder) {
    forall e :: encode(e).Some? ==>
                  |encode(e).value| < TWO_32 && decode(encode(e).value) == if Accepted(e) then Some(e) else None
  }

  /** What a drain of everything leaves for the key of the last payload. */
  lemma LastIsPending(decode: Decoder, m: Pend, q: seq<Payload>, e: Entry)
    requires q != [] && Decodable(decode, q) && decode(q[|q| - 1]) == Some(e)
    ensures
      var m' := PutAll(m, DecodeAll(decode, q));
      Ref(e.dmap, e.key, e.hkey) in m' && m'[Ref(e.dmap, e.key, e.hkey)] == e
  {
    LastPutIsRead(m, DecodeAll(decode, q), |q| - 1);
  }

  /** An acknowledged write, once a drain has emptied the ring, is pending under its map
      and key as the operation said it, with the next fence of its window; and a load of
      that key returns its bytes until its deadline, or nothing after a delete. The drain
      leaves the ring not empty only at its batch size or a pending limit, and fails only
      on a payload that does not decode. */
  method WriteDrainLoad(hook: Hook, server: Server, op: Operation, kind: Op, now: int,
                        encode: Entry -> Option<Payload>, progress: seq<nat>, t: int, fails: bool)
    returns (r: After, drained: nat, ok: bool, found: Option<Record>, loaded: bool)
    requires hook.Valid() && server.Valid() && hook.ring == server.ring && Codec(encode, server.decode)
    modifies hook, hook.sequence, server.ring, server.ring.data, server.pending
    ensures server.Valid()
    ensures ok ==> drained == server.batchSize || server.Full(server.pending.entries) || server.ring.Contents() == []
    ensures r.Acknowledged? && ok && server.ring.Contents() == [] ==>
              && Ref(op.dmap, op.key, op.hkey) in server.pending.entries
              && Tells(server.pending.entries[Ref(op.dmap, op.key, op.hkey)], op, kind,
                       Hook.NextSeq(old(hook.sequence.View()), op), hook.writerID, now)
              && loaded
              && var ttl := if op.entry.Some? then op.entry.value.ttl else 0;
                 && (found.Some? <==> kind != OpDelete && (ttl <= 0 || t < ttl))
                 && (found.Some? ==> found.value.encoded == if op.entry.Some? then op.entry.value.encoded else [])
  {
    hide RingLayout.RingInv, PutAll, TotalBytes, Keyed, SharedRing.Ring.Contents, SharedRing.Ring.Poisoned, Server.Full,
      LoadSpec, Tells;
    ghost var popped, m := 0, server.pending.entries;
    r, popped := hook.AfterMutation(op, kind, true, now, encode, progress);
    ghost var q := server.ring.Contents();
    drained, ok := server.DrainRing();
    found, loaded := server.LoadFromMySQL(Ref(op.dmap, op.key, op.hkey), t, fails);
    if r.Acknowledged? && ok && server.ring.Contents() == [] {
      ghost var e :| && Tells(e, op, kind, Hook.NextSeq(old(hook.sequence.View()), op), hook.writerID, now)
                     && encode(e).Some? && q != [] && q[|q| - 1] == encode(e).value;
      assert q[..drained] == q;
      LastIsPending(server.decode, m, q, e);
      TellsFields(e, op, kind, Hook.NextSeq(old(hook.sequence.View()), op), hook.writerID, now);
    }
  }

  lemma TellsFields(e: Entry, op: Operation, kind: Op, ownerSeq: int, writer: string, now: int)
    requires Tells(e, op, kind, ownerSeq, writer, now)
    ensures e.op == kind && Ref(e.dmap, e.key, e.hkey) == Ref(op.dmap, op.key, op.hkey)
    ensures e.ttl == if op.entry.Some? then op.entry.value.ttl else 0
    ensures e.encoded == if op.entry.Some? then op.entry.value.encoded else []
  {
  }
}
