/** The header-sync store of one foreign chain as an object whose fields the
    handler's calls update in place: the genesis marker, the hash index of
    every stored header, the height index of the best branch and the best
    tip.  Every method is proved to do what the corresponding function of
    `HeaderStore` specifies, so everything proved there holds of it. */
module BtcHandler {
  import opened Common
  import opened BtcWire
  import opened HeaderStore

  class HeaderSyncStore {
    const params: NetParams
    var genesis: Option<Hash>
    var headers: map<Hash, StoredHeader>
    var heightIndex: map<nat, Hash>
    var best: Hash

    /** The fields as a `HeaderStore.Store` value. */
    function State(): Store
      reads this
    {
      Store(genesis, headers, heightIndex, best)
    }

    ghost predicate Valid()
      reads this
    {
      Consistent(params, State())
    }

    /** A chain with no genesis header yet. */
    constructor (p: NetParams)
      ensures params == p && State() == EmptyStore && Valid()
    {
      params := p;
      genesis := None;
      headers := map[];
      heightIndex := map[];
      best := ZeroHash;
    }

    /** SyncGenesisHeader: an encoded header, then its height as four big-endian bytes. */
    method SyncGenesisHeader(payload: seq<Byte>) returns (err: Option<SyncError>)
      requires Valid()
      modifies this
      ensures Valid()
      ensures Step(State(), err) == SyncGenesis(params, old(State()), payload)
    {
      ghost var s := State();
      GenesisConsistent(params, s, payload);
      if |payload| < HeaderSize + 4 {
        return Some(MalformedHeader);
      }
      var hdr := DecodeHeader(payload[..|payload| - 4]).value;
      var height := Uint32FromBE(payload[|payload| - 4..]);
      var hash := BlockHash(params, hdr);
      if genesis.Some? {
        if genesis.value == hash {
          return None;
        }
        return Some(GenesisConflict);
      }
      genesis := Some(hash);
      headers := map[hash := StoredHeader(hdr, height, params.calcWork(hdr.bits))];
      heightIndex := map[height := hash];
      best := hash;
      return None;
    }

    /** SyncBlockHeader: the headers of the batch one by one, stopping at the
        first error; what the headers before it wrote stays written. */
    method SyncBlockHeaders(batch: seq<seq<Byte>>) returns (err: Option<SyncError>)
      requires Valid()
      modifies this
      ensures Valid()
      ensures Step(State(), err) == SyncBlockHeader(params, old(State()), batch)
    {
      if genesis.None? {
        return Some(ChainNotInitialized);
      }
      ghost var s0 := State();
      var i := 0;
      while i < |batch|
        invariant 0 <= i <= |batch|
        invariant Valid() && genesis.Some?
        invariant SyncBatch(params, s0, batch) == SyncBatch(params, State(), batch[i..])
      {
        ghost var s := State();
        var e := AddOne(batch[i]);
        if e.Some? {
          assert SyncBatch(params, s, batch[i..]) == AddHeader(params, s, batch[i]);
          return e;
        }
        assert batch[i..][1..] == batch[i + 1..];
        i := i + 1;
      }
      return None;
    }

    /** One header of a batch. */
    method AddOne(raw: seq<Byte>) returns (err: Option<SyncError>)
      requires Valid() && genesis.Some?
      modifies this
      ensures Valid() && genesis.Some?
      ensures Step(State(), err) == AddHeader(params, old(State()), raw)
    {
      ghost var s := State();
      AddHeaderConsistent(params, s, raw);
      var decoded := DecodeHeader(raw);
      if decoded.None? {
        return Some(MalformedHeader);
      }
      var hdr := decoded.value;
      var hash := BlockHash(params, hdr);
      if hash in headers {
        return None;
      }
      if hdr.prevBlock !in headers {
        return Some(OrphanHeader);
      }
      var parent := headers[hdr.prevBlock];
      if !params.checkHeader(hdr, parent, headers) {
        return Some(InvalidProofOfWork);
      }
      var rec := StoredHeader(hdr, parent.height + 1, parent.chainWork + params.calcWork(hdr.bits));
      var bestRec := headers[best];
      headers := headers[hash := rec];
      if rec.chainWork > bestRec.chainWork {
        assert forall h :: h in heightIndex ==> h <= bestRec.height;
        Reorganise(hash, rec.height, bestRec.height);
        best := hash;
        assert State() == Store(s.genesis, s.headers[hash := rec], Reorganize(s.heightIndex, headers, hash, rec.height), hash);
      } else {
        assert State() == s.(headers := s.headers[hash := rec]);
      }
      return None;
    }

    /** Points the height index at the branch ending in `tip`: `tip` at its
        height `th`, then every height below it on the way back to the common
        ancestor, then drops the heights above `th` up to the old best height `obh`. */
    method Reorganise(tip: Hash, th: nat, obh: nat)
      requires tip in headers && th > 0
      requires forall h :: h in heightIndex ==> h <= obh
      modifies this
      ensures genesis == old(genesis) && headers == old(headers) && best == old(best)
      ensures heightIndex == Reorganize(old(heightIndex), headers, tip, th)
    {
      heightIndex := heightIndex[th := tip];
      RewriteBelow(headers[tip].header.prevBlock, th - 1, th, obh);
      DropAbove(th, obh);
    }

    /** The walk back from `cur` at height `h`: each height that does not
        already hold the walk's header is pointed at it, until the common ancestor. */
    method RewriteBelow(cur: Hash, h: nat, th: nat, obh: nat)
      requires h < th && forall k :: k in heightIndex ==> k <= obh || k <= th
      modifies this
      ensures genesis == old(genesis) && headers == old(headers) && best == old(best)
      ensures heightIndex == RewriteFrom(old(heightIndex), headers, cur, h)
      ensures forall k :: k in heightIndex ==> k <= obh || k <= th
    {
      var c: Hash, k: nat := cur, h;
      while !(k in heightIndex && heightIndex[k] == c) && c in headers && k > 0
        invariant genesis == old(genesis) && headers == old(headers) && best == old(best)
        invariant k <= h
        invariant RewriteFrom(heightIndex, headers, c, k) == RewriteFrom(old(heightIndex), headers, cur, h)
        invariant forall x :: x in heightIndex ==> x <= obh || x <= th
        decreases k
      {
        heightIndex := heightIndex[k := c];
        c := headers[c].header.prevBlock;
        k := k - 1;
      }
      if !(k in heightIndex && heightIndex[k] == c) {
        heightIndex := heightIndex[k := c];
      }
    }

    /** Removes the heights from `th + 1` up to `obh`, the highest one in use. */
    method DropAbove(th: nat, obh: nat)
      requires forall k :: k in heightIndex ==> k <= obh || k <= th
      modifies this
      ensures genesis == old(genesis) && headers == old(headers) && best == old(best)
      ensures heightIndex == Truncate(old(heightIndex), th)
    {
      var k := th + 1;
      while k <= obh
        invariant th + 1 <= k
        invariant genesis == old(genesis) && headers == old(headers) && best == old(best)
        invariant forall x :: x in heightIndex <==> x in old(heightIndex) && (x <= th || x >= k)
        invariant forall x :: x in heightIndex ==> heightIndex[x] == old(heightIndex)[x]
      {
        heightIndex := heightIndex - {k};
        k := k + 1;
      }
    }

    /** GetHeaderByHash. */
    method GetHeaderByHash(hash: Hash) returns (r: Result<StoredHeader, SyncError>)
      requires Valid()
      ensures r == HeaderByHash(params, State(), hash)
    {
      if hash in headers {
        r := Ok(headers[hash]);
      } else {
        r := Err(NotFound);
      }
    }

    /** GetHeaderByHeight. */
    method GetHeaderByHeight(height: nat) returns (r: Result<StoredHeader, SyncError>)
      requires Valid()
      ensures r == HeaderByHeight(params, State(), height)
    {
      if height in heightIndex {
        r := Ok(headers[heightIndex[height]]);
      } else {
        r := Err(NotFound);
      }
    }

    /** GetBestBlockHeader. */
    method GetBestBlockHeader() returns (r: Result<StoredHeader, SyncError>)
      requires Valid()
      ensures r == BestHeader(params, State())
    {
      if genesis.Some? {
        r := Ok(headers[best]);
      } else {
        r := Err(NotFound);
      }
    }
  }
}
