/** The remaining promises of SyncBlockHeader: a header that is refused
    leaves the store as it was, an orphan is refused, re-submitting a batch
    that was accepted changes nothing, and the best tip moves only to a
    header with strictly more cumulative work. */
module SyncFacts {
  import opened Common
  import opened BtcWire
  import opened HeaderStore
  import opened ForkChoice

  // ---------------------------------------------------------------------
  // Refused headers
  // ---------------------------------------------------------------------

  /** A header refused with an error leaves the store unchanged, and the
      error is one of the three a header can be refused for. */
  lemma AddHeaderErrorKeepsStore(p: NetParams, s: Store, raw: seq<Byte>)
    requires Consistent(p, s) && s.genesis.Some?
    requires AddHeader(p, s, raw).err.Some?
    ensures AddHeader(p, s, raw).store == s
    ensures AddHeader(p, s, raw).err.value in {MalformedHeader, OrphanHeader, InvalidProofOfWork}
  {
  }

  /** Fewer than 80 bytes do not decode to a header. */
  lemma ShortHeaderRejected(p: NetParams, s: Store, raw: seq<Byte>)
    requires Consistent(p, s) && s.genesis.Some? && |raw| < HeaderSize
    ensures SyncBlockHeader(p, s, [raw]) == Step(s, Some(MalformedHeader))
  {
    SyncOne(p, s, raw);
  }

  /** A new header whose previous-block hash names no stored header is an
      orphan: the batch fails with OrphanHeader and stores nothing. */
  lemma OrphanRejected(p: NetParams, s: Store, hdr: BlockHeader)
    requires Consistent(p, s) && s.genesis.Some?
    requires BlockHash(p, hdr) !in s.headers && hdr.prevBlock !in s.headers
    ensures SyncBlockHeader(p, s, [EncodeHeader(hdr)]) == Step(s, Some(OrphanHeader))
  {
    SyncOne(p, s, EncodeHeader(hdr));
    DecodeEncoded(hdr);
  }

  /** A new header with a stored parent that the chain's checks reject fails
      with InvalidProofOfWork and stores nothing. */
  lemma InvalidWorkRejected(p: NetParams, s: Store, hdr: BlockHeader)
    requires Consistent(p, s) && s.genesis.Some?
    requires BlockHash(p, hdr) !in s.headers && hdr.prevBlock in s.headers
    requires !p.checkHeader(hdr, s.headers[hdr.prevBlock], s.headers)
    ensures SyncBlockHeader(p, s, [EncodeHeader(hdr)]) == Step(s, Some(InvalidProofOfWork))
  {
    SyncOne(p, s, EncodeHeader(hdr));
    DecodeEncoded(hdr);
  }

  /** Before any genesis header, every batch fails with ChainNotInitialized
      and leaves the store unchanged. This is SyncBlockHeader's first branch,
      stated as a fact of its own. */
  lemma UninitialisedRejected(p: NetParams, s: Store, batch: seq<seq<Byte>>)
    requires Consistent(p, s) && s.genesis.None?
    ensures SyncBlockHeader(p, s, batch) == Step(s, Some(ChainNotInitialized))
  {
  }

  // ---------------------------------------------------------------------
  // Re-submission
  // ---------------------------------------------------------------------

  /** Every entry of the batch decodes to a header that is stored in `hs`. */
  ghost predicate AllKnown(p: NetParams, hs: map<Hash, StoredHeader>, batch: seq<seq<Byte>>)
  {
    forall i :: 0 <= i < |batch| ==>
      DecodeHeader(batch[i]).Some? && BlockHash(p, DecodeHeader(batch[i]).value) in hs
  }

  lemma AllKnownTail(p: NetParams, hs: map<Hash, StoredHeader>, batch: seq<seq<Byte>>)
    requires batch != [] && AllKnown(p, hs, batch)
    ensures AllKnown(p, hs, batch[1..])
  {
    forall i | 0 <= i < |batch[1..]|
      ensures DecodeHeader(batch[1..][i]).Some? && BlockHash(p, DecodeHeader(batch[1..][i]).value) in hs
    {
      assert batch[1..][i] == batch[i + 1];
    }
  }

  /** A batch that succeeds leaves every one of its headers stored. */
  lemma {:induction false} SyncedAreKnown(p: NetParams, s: Store, batch: seq<seq<Byte>>)
    requires Consistent(p, s) && s.genesis.Some?
    requires SyncBatch(p, s, batch).err == None
    ensures AllKnown(p, SyncBatch(p, s, batch).store.headers, batch)
    decreases |batch|
  {
    if batch != [] {
      AddHeaderConsistent(p, s, batch[0]);
      var s1 := AddHeader(p, s, batch[0]).store;
      var hs := SyncBatch(p, s1, batch[1..]).store.headers;
      SyncBatchCons(p, s, batch);
      SyncedAreKnown(p, s1, batch[1..]);
      var hdr := DecodeHeader(batch[0]).value;
      assert BlockHash(p, hdr) in s1.headers;
      forall i | 0 <= i < |batch|
        ensures DecodeHeader(batch[i]).Some? && BlockHash(p, DecodeHeader(batch[i]).value) in hs
      {
        if i > 0 {
          assert batch[1..][i - 1] == batch[i];
        }
      }
    }
  }

  /** A batch of headers that are all stored already is skipped header by
      header: no error and the same store. */
  lemma {:induction false} KnownBatchIsNoOp(p: NetParams, s: Store, batch: seq<seq<Byte>>)
    requires Consistent(p, s) && s.genesis.Some?
    requires AllKnown(p, s.headers, batch)
    ensures SyncBatch(p, s, batch) == Step(s, None)
    decreases |batch|
  {
    if batch != [] {
      assert AddHeader(p, s, batch[0]) == Step(s, None);
      AllKnownTail(p, s.headers, batch);
      KnownBatchIsNoOp(p, s, batch[1..]);
    }
  }

  /** Submitting a batch a second time, after it succeeded, succeeds and
      changes nothing. */
  lemma ResubmitIsNoOp(p: NetParams, s: Store, batch: seq<seq<Byte>>)
    requires Consistent(p, s)
    requires SyncBlockHeader(p, s, batch).err == None
    ensures var r := SyncBlockHeader(p, s, batch).store;
      SyncBlockHeader(p, r, batch) == Step(r, None)
  {
    var r := SyncBlockHeader(p, s, batch).store;
    SyncedAreKnown(p, s, batch);
    KnownBatchIsNoOp(p, r, batch);
  }

  // ---------------------------------------------------------------------
  // The best tip
  // ---------------------------------------------------------------------

  /** One header moves the best tip only to a record with strictly more
      cumulative work than the old best: equal work keeps the old tip. */
  lemma AddHeaderBestMoves(p: NetParams, s: Store, raw: seq<Byte>)
    requires Consistent(p, s) && s.genesis.Some?
    ensures var r := AddHeader(p, s, raw).store;
      r.best in r.headers &&
      (r.best == s.best || r.headers[r.best].chainWork > s.headers[s.best].chainWork)
  {
    AddHeaderConsistent(p, s, raw);
  }

  /** Over a whole batch, the best tip either stays or ends on a record with
      strictly more cumulative work than the best before the batch. */
  lemma {:induction false} BestMovesOnlyOnMoreWork(p: NetParams, s: Store, batch: seq<seq<Byte>>)
    requires Consistent(p, s) && s.genesis.Some?
    ensures var r := SyncBatch(p, s, batch).store;
      r.best in r.headers &&
      (r.best == s.best || r.headers[r.best].chainWork > s.headers[s.best].chainWork)
    decreases |batch|
  {
    if batch != [] {
      AddHeaderConsistent(p, s, batch[0]);
      AddHeaderBestMoves(p, s, batch[0]);
      var r0 := AddHeader(p, s, batch[0]);
      if r0.err.None? {
        BestMovesOnlyOnMoreWork(p, r0.store, batch[1..]);
        if r0.store.best == s.best {
          assert r0.store.headers[s.best] == s.headers[s.best];
        }
      }
    }
  }
}
