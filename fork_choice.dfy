/** What the header-sync store promises across calls: genesis setup, a batch
    that extends the best branch, a lighter fork that is stored but not
    chosen, a heavier fork that takes over the height index, idempotent
    re-submission, orphan rejection, and the batch's forward-progress
    semantics.  Each is proved of the specification in `HeaderStore`. */
module ForkChoice {
  import opened Common
  import opened BtcWire
  import opened HeaderStore

  // ---------------------------------------------------------------------
  // Batches of headers
  // ---------------------------------------------------------------------

  /** The wire form of a list of headers, as a relayer submits them. */
  function Encoded(hdrs: seq<BlockHeader>): (r: seq<seq<Byte>>)
    ensures |r| == |hdrs|
  {
    if hdrs == [] then [] else [EncodeHeader(hdrs[0])] + Encoded(hdrs[1..])
  }

  /** Each header names the previous one's hash, the first one `anchor`. */
  ghost predicate LinksFrom(p: NetParams, anchor: Hash, hdrs: seq<BlockHeader>)
    decreases |hdrs|
  {
    hdrs == [] || (hdrs[0].prevBlock == anchor && LinksFrom(p, BlockHash(p, hdrs[0]), hdrs[1..]))
  }

  /** No header of the list is stored yet, and their hashes are pairwise different. */
  ghost predicate Unseen(p: NetParams, hs: map<Hash, StoredHeader>, hdrs: seq<BlockHeader>)
  {
    && (forall i :: 0 <= i < |hdrs| ==> BlockHash(p, hdrs[i]) !in hs)
    && (forall i, j :: 0 <= i < j < |hdrs| ==> BlockHash(p, hdrs[i]) != BlockHash(p, hdrs[j]))
  }

  /** The chain's proof-of-work and difficulty rules accept each header of
      the list as the batch meets it: the first against `base`, its parent,
      and the stored headers `hs`; each later one against the record the
      batch stored just before it and the headers stored by then. */
  ghost predicate Checked(p: NetParams, base: StoredHeader, hdrs: seq<BlockHeader>, hs: map<Hash, StoredHeader>)
    decreases |hdrs|
  {
    hdrs == [] ||
      var rec := StoredHeader(hdrs[0], base.height + 1, base.chainWork + p.calcWork(hdrs[0].bits));
      p.checkHeader(hdrs[0], base, hs) && Checked(p, rec, hdrs[1..], hs[BlockHash(p, hdrs[0]) := rec])
  }

  /** Every header of the list carries positive work. */
  ghost predicate PositiveWork(p: NetParams, hdrs: seq<BlockHeader>)
  {
    forall i :: 0 <= i < |hdrs| ==> p.calcWork(hdrs[i].bits) > 0
  }

  /** The work the headers of a list add up to. */
  function SumWork(p: NetParams, hdrs: seq<BlockHeader>): nat
  {
    if hdrs == [] then 0 else p.calcWork(hdrs[0].bits) + SumWork(p, hdrs[1..])
  }

  lemma EncodedSplit(hdrs: seq<BlockHeader>)
    requires hdrs != []
    ensures Encoded(hdrs)[0] == EncodeHeader(hdrs[0]) && Encoded(hdrs)[1..] == Encoded(hdrs[1..])
  {
  }

  lemma SumWorkPrefix(p: NetParams, hdrs: seq<BlockHeader>, i: nat)
    requires 0 < i <= |hdrs|
    ensures SumWork(p, hdrs[..i]) == p.calcWork(hdrs[0].bits) + SumWork(p, hdrs[1..][..i - 1])
  {
    assert hdrs[..i][1..] == hdrs[1..][..i - 1];
  }

  lemma UnseenTail(p: NetParams, hs: map<Hash, StoredHeader>, hdrs: seq<BlockHeader>, rec: StoredHeader)
    requires hdrs != [] && Unseen(p, hs, hdrs)
    ensures Unseen(p, hs[BlockHash(p, hdrs[0]) := rec], hdrs[1..])
  {
    forall i | 0 <= i < |hdrs[1..]|
      ensures BlockHash(p, hdrs[1..][i]) !in hs[BlockHash(p, hdrs[0]) := rec]
    {
      assert hdrs[1..][i] == hdrs[i + 1];
    }
    forall i, j | 0 <= i < j < |hdrs[1..]|
      ensures BlockHash(p, hdrs[1..][i]) != BlockHash(p, hdrs[1..][j])
    {
      assert hdrs[1..][i] == hdrs[i + 1] && hdrs[1..][j] == hdrs[j + 1];
    }
  }

  // ---------------------------------------------------------------------
  // Single headers
  // ---------------------------------------------------------------------

  lemma DecodeEncoded(hdr: BlockHeader)
    ensures DecodeHeader(EncodeHeader(hdr)) == Some(hdr)
  {
    DecodeEncode(hdr, []);
    assert EncodeHeader(hdr) + [] == EncodeHeader(hdr);
  }

  /** When the new tip's parent is the index's top entry, reorganising only appends the tip. */
  lemma ReorganizeOnTop(idx: map<nat, Hash>, hs: map<Hash, StoredHeader>, tip: Hash, th: nat)
    requires tip in hs && th > 0
    requires th - 1 in idx && idx[th - 1] == hs[tip].header.prevBlock
    requires forall h :: h in idx ==> h < th
    ensures Reorganize(idx, hs, tip, th) == idx[th := tip]
  {
    var idx0 := idx[th := tip];
    assert RewriteFrom(idx0, hs, hs[tip].header.prevBlock, th - 1) == idx0;
    assert Truncate(idx0, th) == idx0;
  }

  /** A new header on top of the best tip is appended to the height index and becomes the best. */
  lemma AppendToBest(p: NetParams, s: Store, hdr: BlockHeader)
    requires Consistent(p, s) && s.genesis.Some?
    requires hdr.prevBlock == s.best && BlockHash(p, hdr) !in s.headers
    requires p.checkHeader(hdr, s.headers[s.best], s.headers)
    requires p.calcWork(hdr.bits) > 0
    ensures s.headers[s.best].height + 1 !in s.heightIndex
    ensures var r, hash, b := AddHeader(p, s, EncodeHeader(hdr)), BlockHash(p, hdr), s.headers[s.best];
      && r.err == None && r.store.genesis == s.genesis && r.store.best == hash
      && r.store.headers == s.headers[hash := StoredHeader(hdr, b.height + 1, b.chainWork + p.calcWork(hdr.bits))]
      && r.store.heightIndex == s.heightIndex[b.height + 1 := hash]
  {
    DecodeEncoded(hdr);
    var hash, b := BlockHash(p, hdr), s.headers[s.best];
    var rec := StoredHeader(hdr, b.height + 1, b.chainWork + p.calcWork(hdr.bits));
    var hs := s.headers[hash := rec];
    assert b.height in s.heightIndex;
    ReorganizeOnTop(s.heightIndex, hs, hash, b.height + 1);
  }

  /** A new header whose branch has no more work than the best is stored and changes nothing else. */
  lemma StorePassive(p: NetParams, s: Store, hdr: BlockHeader)
    requires Consistent(p, s) && s.genesis.Some?
    requires hdr.prevBlock in s.headers && BlockHash(p, hdr) !in s.headers
    requires p.checkHeader(hdr, s.headers[hdr.prevBlock], s.headers)
    requires s.headers[hdr.prevBlock].chainWork + p.calcWork(hdr.bits) <= s.headers[s.best].chainWork
    ensures var r, hash, par := AddHeader(p, s, EncodeHeader(hdr)), BlockHash(p, hdr), s.headers[hdr.prevBlock];
      && r.err == None && r.store.genesis == s.genesis && r.store.best == s.best
      && r.store.heightIndex == s.heightIndex
      && hash in r.store.headers
      && r.store.headers[hash] == StoredHeader(hdr, par.height + 1, par.chainWork + p.calcWork(hdr.bits))
      && Keeps(s.headers, r.store.headers)
      && (forall k :: k in r.store.headers ==> k in s.headers || k == hash)
  {
    DecodeEncoded(hdr);
  }

  /** A new header whose branch has more work than the best becomes the best. */
  lemma StoreHeavier(p: NetParams, s: Store, hdr: BlockHeader)
    requires Consistent(p, s) && s.genesis.Some?
    requires hdr.prevBlock in s.headers && BlockHash(p, hdr) !in s.headers
    requires p.checkHeader(hdr, s.headers[hdr.prevBlock], s.headers)
    requires s.headers[hdr.prevBlock].chainWork + p.calcWork(hdr.bits) > s.headers[s.best].chainWork
    ensures var r, hash, par := AddHeader(p, s, EncodeHeader(hdr)), BlockHash(p, hdr), s.headers[hdr.prevBlock];
      && r.err == None && r.store.genesis == s.genesis && r.store.best == hash
      && hash in r.store.headers
      && r.store.headers[hash] == StoredHeader(hdr, par.height + 1, par.chainWork + p.calcWork(hdr.bits))
  {
    DecodeEncoded(hdr);
  }

  // ---------------------------------------------------------------------
  // SyncGenesisHeader
  // ---------------------------------------------------------------------

  /** The genesis payload of the test: the encoded header, then the height big-endian. */
  function GenesisPayload(hdr: BlockHeader, height: Uint32): (b: seq<Byte>)
    ensures |b| == HeaderSize + 4
  {
    EncodeHeader(hdr) + Uint32ToBE(height)
  }

  /** Genesis sync on the empty store succeeds; afterwards the genesis header
      is the best header and the only entry of the height index. */
  lemma {:induction false} GenesisOnEmpty(p: NetParams, hdr: BlockHeader, height: Uint32)
    ensures var r := SyncGenesis(p, EmptyStore, GenesisPayload(hdr, height));
      var rec := StoredHeader(hdr, height, p.calcWork(hdr.bits));
      && r.err == None
      && Consistent(p, r.store)
      && r.store.genesis == Some(BlockHash(p, hdr))
      && BestHeader(p, r.store) == Ok(rec)
      && HeaderByHeight(p, r.store, height) == Ok(rec)
      && (forall h :: h != height ==> HeaderByHeight(p, r.store, h) == Err(NotFound))
      && HeaderByHash(p, r.store, BlockHash(p, hdr)) == Ok(rec)
  {
    var payload := GenesisPayload(hdr, height);
    assert payload[..|payload| - 4] == EncodeHeader(hdr) + [];
    assert payload[|payload| - 4..] == Uint32ToBE(height);
    DecodeEncode(hdr, []);
    BERoundTrip(height);
    GenesisConsistent(p, EmptyStore, payload);
  }

  /** Once a chain has its genesis, the same genesis again is a no-op and a
      different one is refused; the store is unchanged either way. */
  lemma {:induction false} GenesisIsFixed(p: NetParams, s: Store, hdr: BlockHeader, height: Uint32)
    requires Consistent(p, s) && s.genesis.Some?
    ensures var r := SyncGenesis(p, s, GenesisPayload(hdr, height));
      && r.store == s
      && r.err == (if BlockHash(p, hdr) == s.genesis.value then None else Some(GenesisConflict))
  {
    var payload := GenesisPayload(hdr, height);
    assert payload[..|payload| - 4] == EncodeHeader(hdr) + [];
    DecodeEncode(hdr, []);
  }

  // ---------------------------------------------------------------------
  // SyncBlockHeader
  // ---------------------------------------------------------------------

  /** A batch whose first header is accepted goes on with the rest of the
      batch from the store that header leaves. */
  lemma SyncBatchCons(p: NetParams, s: Store, batch: seq<seq<Byte>>)
    requires Consistent(p, s) && s.genesis.Some? && batch != []
    requires AddHeader(p, s, batch[0]).err == None
    ensures var s1 := AddHeader(p, s, batch[0]).store;
      && Consistent(p, s1) && s1.genesis == s.genesis
      && SyncBatch(p, s, batch) == SyncBatch(p, s1, batch[1..])
  {
    AddHeaderConsistent(p, s, batch[0]);
  }

  /** A batch of one header is that header's step. */
  lemma SyncOne(p: NetParams, s: Store, raw: seq<Byte>)
    requires Consistent(p, s) && s.genesis.Some?
    ensures SyncBlockHeader(p, s, [raw]) == AddHeader(p, s, raw)
  {
    var r0 := AddHeader(p, s, raw);
    assert [raw][0] == raw && [raw][1..] == [];
    AddHeaderConsistent(p, s, raw);
    if r0.err.None? {
      assert SyncBatch(p, r0.store, []) == Step(r0.store, None);
    }
  }

  /** A batch whose first header is refused stops there with that error. This
      only unfolds SyncBatch's error branch, for the proofs of refusal. */
  lemma SyncBatchStops(p: NetParams, s: Store, batch: seq<seq<Byte>>)
    requires Consistent(p, s) && s.genesis.Some? && batch != []
    requires AddHeader(p, s, batch[0]).err.Some?
    ensures SyncBatch(p, s, batch) == AddHeader(p, s, batch[0])
  {
  }

  /** What a batch demands of the store carries over to its tail once its
      first header is stored. */
  lemma TailConditions(p: NetParams, hs: map<Hash, StoredHeader>, anchor: Hash, hdrs: seq<BlockHeader>, rec: StoredHeader)
    requires hdrs != []
    requires LinksFrom(p, anchor, hdrs) && Unseen(p, hs, hdrs)
    ensures && hdrs[0].prevBlock == anchor && BlockHash(p, hdrs[0]) !in hs
    ensures LinksFrom(p, BlockHash(p, hdrs[0]), hdrs[1..])
    ensures Unseen(p, hs[BlockHash(p, hdrs[0]) := rec], hdrs[1..])
  {
    UnseenTail(p, hs, hdrs, rec);
  }

  /** The first header passes the check against `base`, and the rest of the
      list is checked from the record the first one is stored as. */
  lemma CheckedTail(p: NetParams, base: StoredHeader, hdrs: seq<BlockHeader>, hs: map<Hash, StoredHeader>, rec: StoredHeader)
    requires hdrs != []
    requires rec == StoredHeader(hdrs[0], base.height + 1, base.chainWork + p.calcWork(hdrs[0].bits))
    ensures Checked(p, base, hdrs, hs) <==>
            p.checkHeader(hdrs[0], base, hs) && Checked(p, rec, hdrs[1..], hs[BlockHash(p, hdrs[0]) := rec])
  {
  }

  lemma CheckedSame(p: NetParams, base: StoredHeader, base': StoredHeader, hdrs: seq<BlockHeader>,
                    hs: map<Hash, StoredHeader>, hs': map<Hash, StoredHeader>)
    requires base' == base && hs' == hs
    ensures Checked(p, base', hdrs, hs') == Checked(p, base, hdrs, hs)
  {
  }

  lemma PositiveTail(p: NetParams, hdrs: seq<BlockHeader>)
    requires hdrs != [] && PositiveWork(p, hdrs)
    ensures p.calcWork(hdrs[0].bits) > 0 && PositiveWork(p, hdrs[1..])
  {
    forall i | 0 <= i < |hdrs[1..]| ensures p.calcWork(hdrs[1..][i].bits) > 0 {
      assert hdrs[1..][i] == hdrs[i + 1];
    }
  }

  /** The i-th header of the list is stored in `hs` at `i + 1` above `base`,
      with its height and the cumulative work up to it. */
  ghost predicate StoredAt(p: NetParams, base: StoredHeader, hdrs: seq<BlockHeader>, hs: map<Hash, StoredHeader>, i: nat)
    requires i < |hdrs|
  {
    && BlockHash(p, hdrs[i]) in hs
    && hs[BlockHash(p, hdrs[i])] ==
         StoredHeader(hdrs[i], base.height + 1 + i, base.chainWork + SumWork(p, hdrs[..i + 1]))
  }

  /** ... and, in `r`, it also sits in the height index at that height. */
  ghost predicate BranchEntry(p: NetParams, base: StoredHeader, hdrs: seq<BlockHeader>, r: Store, i: nat)
    requires i < |hdrs|
  {
    && base.height + 1 + i in r.heightIndex
    && r.heightIndex[base.height + 1 + i] == BlockHash(p, hdrs[i])
    && StoredAt(p, base, hdrs, r.headers, i)
  }

  /** The headers of the list sit, in order, in the height index of `r` right above `base`. */
  ghost predicate OnBestBranch(p: NetParams, base: StoredHeader, hdrs: seq<BlockHeader>, r: Store)
  {
    forall i :: 0 <= i < |hdrs| ==> BranchEntry(p, base, hdrs, r, i)
  }

  /** Every entry of the first index is also in the second. */
  ghost predicate IndexKept(idx: map<nat, Hash>, idx': map<nat, Hash>)
  {
    forall h :: h in idx ==> h in idx' && idx'[h] == idx[h]
  }

  /** `r` is `s` with the list appended to its best branch. */
  ghost predicate ExtendedBy(p: NetParams, s: Store, hdrs: seq<BlockHeader>, r: Store)
    requires s.best in s.headers
  {
    var b := s.headers[s.best];
    && r.best in r.headers && r.headers[r.best].height == b.height + |hdrs|
    && r.best == (if hdrs == [] then s.best else BlockHash(p, hdrs[|hdrs| - 1]))
    && OnBestBranch(p, b, hdrs, r)
    && IndexKept(s.heightIndex, r.heightIndex)
  }

  /** ExtendedBy composes with one append in front. */
  lemma ExtendedByCons(p: NetParams, s: Store, s1: Store, hdrs: seq<BlockHeader>, rec: StoredHeader, r: Store)
    requires s.best in s.headers && hdrs != []
    requires rec == StoredHeader(hdrs[0], s.headers[s.best].height + 1,
                                 s.headers[s.best].chainWork + p.calcWork(hdrs[0].bits))
    requires s1.best == BlockHash(p, hdrs[0]) && s1.best in s1.headers && s1.headers[s1.best] == rec
    requires s.headers[s.best].height + 1 in s1.heightIndex
    requires s1.heightIndex[s.headers[s.best].height + 1] == BlockHash(p, hdrs[0])
    requires IndexKept(s.heightIndex, s1.heightIndex)
    requires ExtendedBy(p, s1, hdrs[1..], r) && Keeps(s1.headers, r.headers)
    ensures ExtendedBy(p, s, hdrs, r)
  {
    var b, hash := s.headers[s.best], BlockHash(p, hdrs[0]);
    assert s1.headers[s1.best] == rec;
    assert b.height + 1 in r.heightIndex && r.heightIndex[b.height + 1] == hash;
    assert hash in r.headers && r.headers[hash] == rec;
    ShiftBranch(p, hdrs, b, rec, r);
  }

  /** Appending the first header of a batch to the best tip: the store it
      leaves, which the rest of the batch then starts from and which meets
      what the rest of the batch demands. */
  lemma ExtendBestNext(p: NetParams, s: Store, hdrs: seq<BlockHeader>)
    requires Consistent(p, s) && s.genesis.Some? && hdrs != []
    requires LinksFrom(p, s.best, hdrs) && Unseen(p, s.headers, hdrs)
    requires p.checkHeader(hdrs[0], s.headers[s.best], s.headers) && PositiveWork(p, hdrs)
    ensures var s1 := AddHeader(p, s, EncodeHeader(hdrs[0])).store;
      && Consistent(p, s1) && s1.genesis.Some?
      && LinksFrom(p, s1.best, hdrs[1..]) && Unseen(p, s1.headers, hdrs[1..])
      && (Checked(p, s.headers[s.best], hdrs, s.headers) <==> Checked(p, s1.headers[s1.best], hdrs[1..], s1.headers))
      && PositiveWork(p, hdrs[1..])
      && SyncBatch(p, s, Encoded(hdrs)) == SyncBatch(p, s1, Encoded(hdrs[1..]))
    ensures var s1, b, hash := AddHeader(p, s, EncodeHeader(hdrs[0])).store, s.headers[s.best], BlockHash(p, hdrs[0]);
      && s1.best == hash && hash in s1.headers
      && s1.headers[hash] == StoredHeader(hdrs[0], b.height + 1, b.chainWork + p.calcWork(hdrs[0].bits))
      && b.height + 1 in s1.heightIndex && s1.heightIndex[b.height + 1] == hash
      && IndexKept(s.heightIndex, s1.heightIndex)
  {
    var b := s.headers[s.best];
    var rec := StoredHeader(hdrs[0], b.height + 1, b.chainWork + p.calcWork(hdrs[0].bits));
    TailConditions(p, s.headers, s.best, hdrs, rec);
    PositiveTail(p, hdrs);
    CheckedTail(p, b, hdrs, s.headers, rec);
    AppendToBest(p, s, hdrs[0]);
    EncodedSplit(hdrs);
    SyncBatchCons(p, s, Encoded(hdrs));
    var s1 := AddHeader(p, s, EncodeHeader(hdrs[0])).store;
    CheckedSame(p, rec, s1.headers[s1.best], hdrs[1..], s.headers[BlockHash(p, hdrs[0]) := rec], s1.headers);
  }

  /** ExtendBest at the level of the store's maps. */
  lemma {:induction false} ExtendBestIndex(p: NetParams, s: Store, hdrs: seq<BlockHeader>)
    requires Consistent(p, s) && s.genesis.Some?
    requires LinksFrom(p, s.best, hdrs) && Unseen(p, s.headers, hdrs)
    requires Checked(p, s.headers[s.best], hdrs, s.headers) && PositiveWork(p, hdrs)
    ensures var r := SyncBatch(p, s, Encoded(hdrs));
      r.err == None && ExtendedBy(p, s, hdrs, r.store)
    decreases |hdrs|
  {
    if hdrs != [] {
      var b := s.headers[s.best];
      var rec := StoredHeader(hdrs[0], b.height + 1, b.chainWork + p.calcWork(hdrs[0].bits));
      CheckedTail(p, b, hdrs, s.headers, rec);
      ExtendBestNext(p, s, hdrs);
      var s1 := AddHeader(p, s, EncodeHeader(hdrs[0])).store;
      ExtendBestIndex(p, s1, hdrs[1..]);
      var r := SyncBatch(p, s1, Encoded(hdrs[1..])).store;
      ExtendedByCons(p, s, s1, hdrs, rec, r);
    }
  }

  /** A batch that links onto the best tip, all new, but with a header the
      chain's checks refuse where the batch meets it, fails with
      InvalidProofOfWork. */
  lemma {:induction false} ExtendBestRefused(p: NetParams, s: Store, hdrs: seq<BlockHeader>)
    requires Consistent(p, s) && s.genesis.Some?
    requires LinksFrom(p, s.best, hdrs) && Unseen(p, s.headers, hdrs) && PositiveWork(p, hdrs)
    requires !Checked(p, s.headers[s.best], hdrs, s.headers)
    ensures SyncBlockHeader(p, s, Encoded(hdrs)).err == Some(InvalidProofOfWork)
    decreases |hdrs|
  {
    var b := s.headers[s.best];
    var rec := StoredHeader(hdrs[0], b.height + 1, b.chainWork + p.calcWork(hdrs[0].bits));
    CheckedTail(p, b, hdrs, s.headers, rec);
    TailConditions(p, s.headers, s.best, hdrs, rec);
    EncodedSplit(hdrs);
    if !p.checkHeader(hdrs[0], b, s.headers) {
      DecodeEncoded(hdrs[0]);
      assert AddHeader(p, s, Encoded(hdrs)[0]).err == Some(InvalidProofOfWork);
      SyncBatchStops(p, s, Encoded(hdrs));
    } else {
      ExtendBestNext(p, s, hdrs);
      var s1 := AddHeader(p, s, EncodeHeader(hdrs[0])).store;
      ExtendBestRefused(p, s1, hdrs[1..]);
    }
  }

  /** The induction step of ExtendBestIndex: the tail on top of the first
      header, and the first header on top of the old tip, make the batch. */
  lemma ShiftBranch(p: NetParams, hdrs: seq<BlockHeader>, b: StoredHeader, rec: StoredHeader, r: Store)
    requires hdrs != []
    requires rec == StoredHeader(hdrs[0], b.height + 1, b.chainWork + p.calcWork(hdrs[0].bits))
    requires b.height + 1 in r.heightIndex && r.heightIndex[b.height + 1] == BlockHash(p, hdrs[0])
    requires BlockHash(p, hdrs[0]) in r.headers && r.headers[BlockHash(p, hdrs[0])] == rec
    requires OnBestBranch(p, rec, hdrs[1..], r)
    ensures OnBestBranch(p, b, hdrs, r)
  {
    forall i | 0 <= i < |hdrs|
      ensures BranchEntry(p, b, hdrs, r, i)
    {
      SumWorkPrefix(p, hdrs, i + 1);
      if i == 0 {
        assert hdrs[1..][..0] == [];
      } else {
        assert BranchEntry(p, rec, hdrs[1..], r, i - 1);
        assert hdrs[1..][i - 1] == hdrs[i];
        assert rec.height + 1 + (i - 1) == b.height + 1 + i;
      }
    }
  }

  /** A batch that links onto the best tip, all new and passing the chain's
      checks, succeeds; its last header becomes the best, at the old tip's
      height + the batch's length. */
  lemma {:induction false} ExtendBest(p: NetParams, s: Store, hdrs: seq<BlockHeader>)
    requires Consistent(p, s) && s.genesis.Some?
    requires LinksFrom(p, s.best, hdrs) && Unseen(p, s.headers, hdrs)
    requires Checked(p, s.headers[s.best], hdrs, s.headers) && PositiveWork(p, hdrs)
    ensures var r, b := SyncBlockHeader(p, s, Encoded(hdrs)), s.headers[s.best];
      && r.err == None
      && (hdrs != [] ==> r.store.best == BlockHash(p, hdrs[|hdrs| - 1]))
      && BestHeader(p, r.store).Ok?
      && BestHeader(p, r.store).value.height == b.height + |hdrs|
  {
    ExtendBestIndex(p, s, hdrs);
  }

  /** GetHeaderByHeight at `i + 1` above `base` answers the i-th header of the
      list, with its height and the cumulative work up to it. */
  ghost predicate AnswersAt(p: NetParams, r: Store, base: StoredHeader, hdrs: seq<BlockHeader>, i: nat)
    requires Consistent(p, r) && i < |hdrs|
  {
    HeaderByHeight(p, r, base.height + 1 + i) ==
      Ok(StoredHeader(hdrs[i], base.height + 1 + i, base.chainWork + SumWork(p, hdrs[..i + 1])))
  }

  /** After such a batch, its i-th header is the best branch's header at the
      old tip's height + 1 + i, with the cumulative work of the headers up to it. */
  lemma {:induction false} ExtendBestHeights(p: NetParams, s: Store, hdrs: seq<BlockHeader>)
    requires Consistent(p, s) && s.genesis.Some?
    requires LinksFrom(p, s.best, hdrs) && Unseen(p, s.headers, hdrs)
    requires Checked(p, s.headers[s.best], hdrs, s.headers) && PositiveWork(p, hdrs)
    ensures forall i :: 0 <= i < |hdrs| ==>
      AnswersAt(p, SyncBlockHeader(p, s, Encoded(hdrs)).store, s.headers[s.best], hdrs, i)
  {
    ExtendBestBranch(p, s, hdrs);
    var r := SyncBlockHeader(p, s, Encoded(hdrs)).store;
    forall i | 0 <= i < |hdrs|
      ensures AnswersAt(p, r, s.headers[s.best], hdrs, i)
    {
      BranchQuery(p, r, s.headers[s.best], hdrs, i);
    }
  }

  lemma ExtendBestBranch(p: NetParams, s: Store, hdrs: seq<BlockHeader>)
    requires Consistent(p, s) && s.genesis.Some?
    requires LinksFrom(p, s.best, hdrs) && Unseen(p, s.headers, hdrs)
    requires Checked(p, s.headers[s.best], hdrs, s.headers) && PositiveWork(p, hdrs)
    ensures OnBestBranch(p, s.headers[s.best], hdrs, SyncBlockHeader(p, s, Encoded(hdrs)).store)
  {
    ExtendBestIndex(p, s, hdrs);
  }

  /** ... and the best branch up to the old tip answers queries as before. */
  lemma {:induction false} ExtendBestKeepsBelow(p: NetParams, s: Store, hdrs: seq<BlockHeader>)
    requires Consistent(p, s) && s.genesis.Some?
    requires LinksFrom(p, s.best, hdrs) && Unseen(p, s.headers, hdrs)
    requires Checked(p, s.headers[s.best], hdrs, s.headers) && PositiveWork(p, hdrs)
    ensures forall h: nat :: h <= s.headers[s.best].height ==>
      HeaderByHeight(p, SyncBlockHeader(p, s, Encoded(hdrs)).store, h) == HeaderByHeight(p, s, h)
  {
    ExtendBestIndex(p, s, hdrs);
    var r := SyncBlockHeader(p, s, Encoded(hdrs)).store;
    assert ExtendedBy(p, s, hdrs, r);
    forall h: nat | h <= s.headers[s.best].height
      ensures HeaderByHeight(p, r, h) == HeaderByHeight(p, s, h)
    {
      KeptQuery(p, s, r, h);
    }
  }

  /** The query by height reads the height index.  This only unfolds
      HeaderByHeight's definition; proofs call it to bring that body into play. */
  lemma ByHeight(p: NetParams, s: Store, h: nat)
    requires Consistent(p, s)
    ensures HeaderByHeight(p, s, h) ==
            if h in s.heightIndex then Ok(s.headers[s.heightIndex[h]]) else Err(NotFound)
  {
  }

  lemma BranchQuery(p: NetParams, r: Store, b: StoredHeader, hdrs: seq<BlockHeader>, i: nat)
    requires Consistent(p, r) && OnBestBranch(p, b, hdrs, r) && i < |hdrs|
    ensures AnswersAt(p, r, b, hdrs, i)
  {
    ByHeight(p, r, b.height + 1 + i);
    assert BranchEntry(p, b, hdrs, r, i);
  }

  /** Where the index was kept, and below the genesis, the query answers as before. */
  lemma KeptQuery(p: NetParams, s: Store, r: Store, h: nat)
    requires Consistent(p, s) && Consistent(p, r) && s.genesis.Some? && r.genesis == s.genesis
    requires Keeps(s.headers, r.headers) && IndexKept(s.heightIndex, r.heightIndex)
    requires h <= s.headers[s.best].height
    ensures HeaderByHeight(p, r, h) == HeaderByHeight(p, s, h)
  {
    ByHeight(p, r, h);
    ByHeight(p, s, h);
    if h in s.heightIndex {
      assert s.heightIndex[h] in s.headers;
    } else {
      var g := s.genesis.value;
      assert h < s.headers[g].height;
      assert r.headers[g] == s.headers[g];
    }
  }
}
