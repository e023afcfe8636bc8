/** The Bitcoin header-sync store of the relay chain's native `header_sync`
    service, as a value: every header ever accepted, keyed by its block hash
    and kept with its height and cumulative work; the canonical height index
    of the best branch; and the best tip.  The operations are functions from
    one store to the next; `BtcHandler` runs the same steps imperatively. */
module HeaderStore {
  import opened Common
  import opened BtcWire

  datatype SyncError =
    | MalformedHeader      // a header (or the genesis payload) is too short to decode
    | ChainNotInitialized  // block headers before any genesis header
    | GenesisConflict      // a second, different genesis header
    | OrphanHeader         // the previous-block hash matches no stored header
    | InvalidProofOfWork   // the chain's proof-of-work / difficulty rules reject the header
    | NotFound             // a query misses

  /** A stored header record: the header, its height and the cumulative work of its branch. */
  datatype StoredHeader = StoredHeader(header: BlockHeader, height: nat, chainWork: nat)

  /** The network parameter set of one foreign chain, passed explicitly.
      The block hash (double-SHA256 of the 80-byte `EncodeHeader` form), the
      work of a compact `bits` target, and the proof-of-work/difficulty check
      of a header against its parent and the stored headers are library code
      outside this model and are left uninterpreted. */
  datatype NetParams = NetParams(
    blockHash: BlockHeader -> Hash,
    calcWork: Uint32 -> nat,
    checkHeader: (BlockHeader, StoredHeader, map<Hash, StoredHeader>) -> bool)

  function BlockHash(p: NetParams, h: BlockHeader): Hash
  {
    p.blockHash(h)
  }

  /** The state of one chain.  `genesis == None` is the uninitialised chain;
      `best` is meaningful only once it is initialised. */
  datatype Store = Store(
    genesis: Option<Hash>,
    headers: map<Hash, StoredHeader>,
    heightIndex: map<nat, Hash>,
    best: Hash)

  const EmptyStore: Store := Store(None, map[], map[], ZeroHash)

  /** The store after a call, and the call's error result (None: success). */
  datatype Step = Step(store: Store, err: Option<SyncError>)

  // ---------------------------------------------------------------------
  // Invariant
  // ---------------------------------------------------------------------

  /** Every record is stored under its own block hash. */
  ghost predicate KeyedByHash(p: NetParams, hs: map<Hash, StoredHeader>)
  {
    forall k :: k in hs ==> BlockHash(p, hs[k].header) == k
  }

  /** The record at `k` sits one above a stored parent and adds its own work to the parent's. */
  ghost predicate ExtendsParent(p: NetParams, hs: map<Hash, StoredHeader>, k: Hash)
    requires k in hs
  {
    var par := hs[k].header.prevBlock;
    && par in hs
    && hs[k].height == hs[par].height + 1
    && hs[k].chainWork == hs[par].chainWork + p.calcWork(hs[k].header.bits)
  }

  /** Every record except the genesis one extends a stored parent, and lies above the genesis. */
  ghost predicate Linked(p: NetParams, g: Hash, hs: map<Hash, StoredHeader>)
  {
    && g in hs
    && (forall k {:trigger ExtendsParent(p, hs, k)} :: k in hs && k != g ==> ExtendsParent(p, hs, k))
    && (forall k :: k in hs && k != g ==> hs[k].height > hs[g].height)
  }

  /** `idx` maps exactly the heights from the genesis to `tip` onto the branch ending in `tip`. */
  ghost predicate CanonicalIndex(hs: map<Hash, StoredHeader>, idx: map<nat, Hash>, g: Hash, tip: Hash)
    requires g in hs && tip in hs
  {
    && (forall h :: h in idx <==> hs[g].height <= h <= hs[tip].height)
    && hs[g].height in idx && idx[hs[g].height] == g
    && hs[tip].height in idx && idx[hs[tip].height] == tip
    && (forall h {:trigger h in idx} :: h in idx ==> idx[h] in hs && hs[idx[h]].height == h)
    && (forall h {:trigger h in idx} :: h in idx && h > hs[g].height ==> hs[idx[h]].header.prevBlock == idx[h - 1])
  }

  /** No stored record has more cumulative work than `best`. */
  ghost predicate MaxWork(hs: map<Hash, StoredHeader>, best: Hash)
    requires best in hs
  {
    forall k :: k in hs ==> hs[k].chainWork <= hs[best].chainWork
  }

  ghost predicate Consistent(p: NetParams, s: Store)
  {
    if s.genesis.None? then s.headers == map[] && s.heightIndex == map[]
    else
      && s.genesis.value in s.headers
      && s.best in s.headers
      && KeyedByHash(p, s.headers)
      && Linked(p, s.genesis.value, s.headers)
      && MaxWork(s.headers, s.best)
      && CanonicalIndex(s.headers, s.heightIndex, s.genesis.value, s.best)
  }

  /** `hs'` keeps every record of `hs` unchanged (records are never deleted or mutated). */
  ghost predicate Keeps(hs: map<Hash, StoredHeader>, hs': map<Hash, StoredHeader>)
  {
    forall k :: k in hs ==> k in hs' && hs'[k] == hs[k]
  }

  // ---------------------------------------------------------------------
  // Operations
  // ---------------------------------------------------------------------

  /** SyncGenesisHeader: the payload is an encoded header followed by its
      height as four big-endian bytes. */
  function SyncGenesis(p: NetParams, s: Store, payload: seq<Byte>): (r: Step)
    ensures s.genesis.Some? ==> r.store == s
    ensures r.err.Some? ==> r.store == s
    ensures r.err == None ==> r.store.genesis.Some?
  {
    if |payload| < HeaderSize + 4 then Step(s, Some(MalformedHeader))
    else
      var hdr := DecodeHeader(payload[..|payload| - 4]).value;
      var height := Uint32FromBE(payload[|payload| - 4..]);
      var hash := BlockHash(p, hdr);
      if s.genesis.Some? then
        if s.genesis.value == hash then Step(s, None) else Step(s, Some(GenesisConflict))
      else
        Step(Store(Some(hash), map[hash := StoredHeader(hdr, height, p.calcWork(hdr.bits))],
                   map[height := hash], hash), None)
  }

  /** Walks back from `cur` at height `h`, pointing every height at the new
      branch, until the index already holds `cur` there: the common ancestor.
      (The middle branch is never taken in a consistent store.) */
  function RewriteFrom(idx: map<nat, Hash>, hs: map<Hash, StoredHeader>, cur: Hash, h: nat): map<nat, Hash>
    decreases h
  {
    if h in idx && idx[h] == cur then idx
    else if cur !in hs || h == 0 then idx[h := cur]
    else RewriteFrom(idx[h := cur], hs, hs[cur].header.prevBlock, h - 1)
  }

  /** The index without its entries above `top`. */
  function Truncate(idx: map<nat, Hash>, top: nat): map<nat, Hash>
  {
    map h | h in idx && h <= top :: idx[h]
  }

  /** The height index after `tip` (at height `th`) becomes the best header. */
  function Reorganize(idx: map<nat, Hash>, hs: map<Hash, StoredHeader>, tip: Hash, th: nat): map<nat, Hash>
    requires tip in hs && th > 0
  {
    Truncate(RewriteFrom(idx[th := tip], hs, hs[tip].header.prevBlock, th - 1), th)
  }

  /** One header of a SyncBlockHeader batch. */
  function AddHeader(p: NetParams, s: Store, raw: seq<Byte>): Step
    requires Consistent(p, s) && s.genesis.Some?
  {
    match DecodeHeader(raw)
    case None => Step(s, Some(MalformedHeader))
    case Some(hdr) =>
      var hash := BlockHash(p, hdr);
      if hash in s.headers then Step(s, None)
      else if hdr.prevBlock !in s.headers then Step(s, Some(OrphanHeader))
      else
        var parent := s.headers[hdr.prevBlock];
        if !p.checkHeader(hdr, parent, s.headers) then Step(s, Some(InvalidProofOfWork))
        else
          var rec := StoredHeader(hdr, parent.height + 1, parent.chainWork + p.calcWork(hdr.bits));
          var hs := s.headers[hash := rec];
          if rec.chainWork > s.headers[s.best].chainWork then
            Step(Store(s.genesis, hs, Reorganize(s.heightIndex, hs, hash, rec.height), hash), None)
          else
            Step(s.(headers := hs), None)
  }

  /** The headers of a batch in submission order; the first error stops the batch,
      and what the headers before it wrote stays written. */
  function SyncBatch(p: NetParams, s: Store, batch: seq<seq<Byte>>): (r: Step)
    requires Consistent(p, s) && s.genesis.Some?
    ensures Consistent(p, r.store) && r.store.genesis == s.genesis
    ensures Keeps(s.headers, r.store.headers)
    ensures r.store.headers[r.store.best].chainWork >= s.headers[s.best].chainWork
    decreases |batch|
  {
    if batch == [] then Step(s, None)
    else
      var r0 := AddHeader(p, s, batch[0]);
      AddHeaderConsistent(p, s, batch[0]);
      if r0.err.Some? then r0 else SyncBatch(p, r0.store, batch[1..])
  }

  /** SyncBlockHeader. */
  function SyncBlockHeader(p: NetParams, s: Store, batch: seq<seq<Byte>>): (r: Step)
    requires Consistent(p, s)
    ensures Consistent(p, r.store) && r.store.genesis == s.genesis
    ensures Keeps(s.headers, r.store.headers)
  {
    if s.genesis.None? then Step(s, Some(ChainNotInitialized)) else SyncBatch(p, s, batch)
  }

  // ---------------------------------------------------------------------
  // Queries
  // ---------------------------------------------------------------------

  /** The `d`-th ancestor of `k`, following previous-block hashes. */
  ghost function Ancestor(hs: map<Hash, StoredHeader>, k: Hash, d: nat): Hash
  {
    if d == 0 then k
    else
      var a := Ancestor(hs, k, d - 1);
      if a in hs then hs[a].header.prevBlock else a
  }

  /** GetHeaderByHash. */
  function HeaderByHash(p: NetParams, s: Store, hash: Hash): (r: Result<StoredHeader, SyncError>)
    requires Consistent(p, s)
    ensures r.Ok? <==> hash in s.headers
    ensures r.Ok? ==> BlockHash(p, r.value.header) == hash
    ensures r.Err? ==> r.error == NotFound
  {
    if hash in s.headers then Ok(s.headers[hash]) else Err(NotFound)
  }

  /** GetHeaderByHeight: the best branch's header at `height`. */
  function HeaderByHeight(p: NetParams, s: Store, height: nat): (r: Result<StoredHeader, SyncError>)
    requires Consistent(p, s)
    ensures r.Ok? <==> s.genesis.Some? &&
                       s.headers[s.genesis.value].height <= height <= s.headers[s.best].height
    ensures r.Ok? ==> r.value.height == height
    ensures r.Err? ==> r.error == NotFound
  {
    if height in s.heightIndex then Ok(s.headers[s.heightIndex[height]]) else Err(NotFound)
  }

  /** GetHeaderByHeight `d` blocks below the best height answers the best
      header's `d`-th ancestor, down to the genesis height. */
  lemma ByHeightIsAncestor(p: NetParams, s: Store, height: nat, d: nat)
    requires Consistent(p, s) && s.genesis.Some?
    requires s.headers[s.genesis.value].height <= height && height + d == s.headers[s.best].height
    ensures Ancestor(s.headers, s.best, d) in s.headers
    ensures HeaderByHeight(p, s, height) == Ok(s.headers[Ancestor(s.headers, s.best, d)])
  {
    IndexAncestry(p, s, s.headers[s.best].height, d);
  }

  /** GetBestBlockHeader: the header with most cumulative work, at the top of the index. */
  function BestHeader(p: NetParams, s: Store): (r: Result<StoredHeader, SyncError>)
    requires Consistent(p, s)
    ensures r.Ok? <==> s.genesis.Some?
    ensures r.Ok? ==> BlockHash(p, r.value.header) == s.best
    ensures r.Ok? ==> forall k :: k in s.headers ==> s.headers[k].chainWork <= r.value.chainWork
    ensures r.Ok? ==> HeaderByHeight(p, s, r.value.height) == r
    ensures r.Err? ==> r.error == NotFound
  {
    if s.genesis.Some? then Ok(s.headers[s.best]) else Err(NotFound)
  }

  /** Once initialised, GetBestBlockHeader answers the best record. This only
      unfolds BestHeader's definition; ForkSwitch.OvertakeBest calls it to bring
      that body into play. */
  lemma BestIsBestRecord(p: NetParams, s: Store)
    requires Consistent(p, s) && s.genesis.Some?
    ensures BestHeader(p, s) == Ok(s.headers[s.best])
  {
  }

  // ---------------------------------------------------------------------
  // The invariant is kept
  // ---------------------------------------------------------------------

  /** The height index of a consistent store lists ancestors: the entry `d`
      below an indexed height `top` is the `d`-th ancestor of the entry at `top`. */
  lemma {:induction false} IndexAncestry(p: NetParams, s: Store, top: nat, d: nat)
    requires Consistent(p, s) && s.genesis.Some? && top in s.heightIndex
    requires s.headers[s.genesis.value].height + d <= top
    ensures top - d in s.heightIndex
    ensures s.heightIndex[top - d] == Ancestor(s.headers, s.heightIndex[top], d)
  {
    var hs, idx := s.headers, s.heightIndex;
    assert top - d in idx;
    if d > 0 {
      IndexAncestry(p, s, top, d - 1);
      assert top - d + 1 in idx;
      assert hs[idx[top - d + 1]].header.prevBlock == idx[top - d];
    }
  }

  lemma {:induction false} GenesisConsistent(p: NetParams, s: Store, payload: seq<Byte>)
    requires Consistent(p, s)
    ensures Consistent(p, SyncGenesis(p, s, payload).store)
  {
    if |payload| >= HeaderSize + 4 && s.genesis.None? {
      var hdr := DecodeHeader(payload[..|payload| - 4]).value;
      var hash := BlockHash(p, hdr);
      var s' := SyncGenesis(p, s, payload).store;
      assert s'.headers == map[hash := StoredHeader(hdr, Uint32FromBE(payload[|payload| - 4..]), p.calcWork(hdr.bits))];
      assert KeyedByHash(p, s'.headers);
    }
  }

  /** The state of a reorganisation walk: heights above `h` up to `th` already
      point at the new branch, heights up to `h` still hold the old index. */
  ghost predicate Rewriting(hs: map<Hash, StoredHeader>, prior: map<nat, Hash>, gh: nat, obh: nat,
                            idx: map<nat, Hash>, tip: Hash, th: nat, cur: Hash, h: nat)
  {
    && cur in hs && hs[cur].height == h
    && gh <= h < th
    && (forall k :: k in idx <==> (gh <= k <= obh || h < k <= th))
    && (forall k {:trigger k in idx} :: k in idx && k <= h ==> k in prior && idx[k] == prior[k])
    && (forall k {:trigger k in idx} :: k in idx && h < k ==> idx[k] in hs && hs[idx[k]].height == k)
    && idx[th] == tip
    && hs[idx[h + 1]].header.prevBlock == cur
    && (forall k {:trigger k in idx} :: k in idx && h + 1 < k <= th ==> hs[idx[k]].header.prevBlock == idx[k - 1])
  }

  /** The walk stops where the index already agrees: what it built, cut at
      the new tip, is a canonical index for the tip. */
  lemma RewriteStop(g: Hash, oldHs: map<Hash, StoredHeader>, oldBest: Hash, prior: map<nat, Hash>,
                    hs: map<Hash, StoredHeader>, idx: map<nat, Hash>, tip: Hash, cur: Hash, h: nat)
    requires g in oldHs && oldBest in oldHs
    requires CanonicalIndex(oldHs, prior, g, oldBest)
    requires Keeps(oldHs, hs) && tip in hs
    requires Rewriting(hs, prior, oldHs[g].height, oldHs[oldBest].height, idx, tip, hs[tip].height, cur, h)
    requires h in idx && idx[h] == cur
    ensures CanonicalIndex(hs, Truncate(idx, hs[tip].height), g, tip)
  {
    var gh, obh, th := oldHs[g].height, oldHs[oldBest].height, hs[tip].height;
    assert hs[g] == oldHs[g];
    assert h <= obh;
    assert gh in prior && obh in prior;
    var t := Truncate(idx, th);
    assert gh in idx && th in idx;
    forall k | k in t
      ensures t[k] in hs && hs[t[k]].height == k
    {
      if k <= h {
        assert k in prior;
        assert prior[k] in oldHs && oldHs[prior[k]].height == k;
      }
    }
    forall k | k in t && k > gh
      ensures hs[t[k]].header.prevBlock == t[k - 1]
    {
      assert k - 1 in idx;
      if k <= h {
        assert k in prior && k - 1 in prior;
        assert oldHs[prior[k]].header.prevBlock == prior[k - 1];
      }
    }
  }

  /** One step of the walk: the header at `h` is not yet in the index, so it
      is not the genesis, its parent is stored one below, and pointing `h` at
      it keeps the walk's invariant. */
  lemma RewriteStep(p: NetParams, g: Hash, oldHs: map<Hash, StoredHeader>, oldBest: Hash, prior: map<nat, Hash>,
                    hs: map<Hash, StoredHeader>, idx: map<nat, Hash>, tip: Hash, cur: Hash, h: nat)
    requires g in oldHs && oldBest in oldHs
    requires CanonicalIndex(oldHs, prior, g, oldBest)
    requires Keeps(oldHs, hs) && Linked(p, g, hs) && tip in hs
    requires Rewriting(hs, prior, oldHs[g].height, oldHs[oldBest].height, idx, tip, hs[tip].height, cur, h)
    requires !(h in idx && idx[h] == cur)
    ensures h > 0 && cur != g && ExtendsParent(p, hs, cur)
    ensures Rewriting(hs, prior, oldHs[g].height, oldHs[oldBest].height, idx[h := cur], tip,
                      hs[tip].height, hs[cur].header.prevBlock, h - 1)
  {
    var gh, obh, th := oldHs[g].height, oldHs[oldBest].height, hs[tip].height;
    assert hs[g] == oldHs[g];
    assert gh in prior && obh in prior;
    assert gh in idx;
    if cur == g {
      assert false;
    }
    assert ExtendsParent(p, hs, cur);
    var par := hs[cur].header.prevBlock;
    var idx' := idx[h := cur];
    assert h > gh;
    assert th in idx;
    assert h + 1 in idx;
    forall k | k in idx' && h - 1 + 1 < k <= th
      ensures hs[idx'[k]].header.prevBlock == idx'[k - 1]
    {
      assert k in idx;
      if k > h + 1 {
        assert k - 1 in idx;
      }
    }
  }

  /** The whole walk ends in a canonical index for the new tip. */
  lemma {:induction false} RewriteCanonical(p: NetParams, g: Hash, oldHs: map<Hash, StoredHeader>, oldBest: Hash,
                                            prior: map<nat, Hash>, hs: map<Hash, StoredHeader>,
                                            idx: map<nat, Hash>, tip: Hash, cur: Hash, h: nat)
    requires g in oldHs && oldBest in oldHs
    requires CanonicalIndex(oldHs, prior, g, oldBest)
    requires Keeps(oldHs, hs) && Linked(p, g, hs)
    requires tip in hs
    requires Rewriting(hs, prior, oldHs[g].height, oldHs[oldBest].height, idx, tip, hs[tip].height, cur, h)
    ensures CanonicalIndex(hs, Truncate(RewriteFrom(idx, hs, cur, h), hs[tip].height), g, tip)
    decreases h
  {
    if h in idx && idx[h] == cur {
      RewriteStop(g, oldHs, oldBest, prior, hs, idx, tip, cur, h);
    } else {
      RewriteStep(p, g, oldHs, oldBest, prior, hs, idx, tip, cur, h);
      RewriteCanonical(p, g, oldHs, oldBest, prior, hs, idx[h := cur], tip, hs[cur].header.prevBlock, h - 1);
    }
  }

  /** Storing a new header whose parent is stored keeps the records keyed by
      hash and linked. */
  lemma InsertLinked(p: NetParams, s: Store, hash: Hash, rec: StoredHeader)
    requires Consistent(p, s) && s.genesis.Some?
    requires hash == BlockHash(p, rec.header) && hash !in s.headers
    requires rec.header.prevBlock in s.headers
    requires rec.height == s.headers[rec.header.prevBlock].height + 1
    requires rec.chainWork == s.headers[rec.header.prevBlock].chainWork + p.calcWork(rec.header.bits)
    ensures var hs := s.headers[hash := rec];
      KeyedByHash(p, hs) && Linked(p, s.genesis.value, hs) && Keeps(s.headers, hs)
  {
    var g := s.genesis.value;
    var hs := s.headers[hash := rec];
    assert ExtendsParent(p, hs, hash);
    forall k | k in hs && k != g
      ensures ExtendsParent(p, hs, k)
    {
      if k != hash {
        assert ExtendsParent(p, s.headers, k);
      }
    }
  }

  /** A new header with no more work than the best only joins the records. */
  lemma PassiveConsistent(p: NetParams, s: Store, hash: Hash, rec: StoredHeader)
    requires Consistent(p, s) && s.genesis.Some?
    requires hash !in s.headers
    requires var hs := s.headers[hash := rec];
      KeyedByHash(p, hs) && Linked(p, s.genesis.value, hs)
    requires rec.chainWork <= s.headers[s.best].chainWork
    ensures Consistent(p, s.(headers := s.headers[hash := rec]))
  {
    var g := s.genesis.value;
    var hs := s.headers[hash := rec];
    assert hs[g] == s.headers[g] && hs[s.best] == s.headers[s.best];
    var gh, bh := s.headers[g].height, s.headers[s.best].height;
    assert gh in s.heightIndex && bh in s.heightIndex;
    forall h | h in s.heightIndex
      ensures s.heightIndex[h] in hs && hs[s.heightIndex[h]].height == h
    {
    }
    forall h | h in s.heightIndex && h > gh
      ensures hs[s.heightIndex[h]].header.prevBlock == s.heightIndex[h - 1]
    {
    }
  }

  /** The walk of a reorganisation starts at the new tip's parent, with the
      tip written at its height on top of the old index. */
  lemma ReorgStart(p: NetParams, s: Store, hash: Hash, rec: StoredHeader)
    requires Consistent(p, s) && s.genesis.Some?
    requires hash !in s.headers
    requires rec.header.prevBlock in s.headers
    requires rec.height == s.headers[rec.header.prevBlock].height + 1
    requires var hs := s.headers[hash := rec];
      Linked(p, s.genesis.value, hs) && Keeps(s.headers, hs)
    ensures var hs, g := s.headers[hash := rec], s.genesis.value;
      Rewriting(hs, s.heightIndex, s.headers[g].height, s.headers[s.best].height,
                s.heightIndex[rec.height := hash], hash, rec.height, rec.header.prevBlock, rec.height - 1)
  {
    var g := s.genesis.value;
    var hs := s.headers[hash := rec];
    var parent := rec.header.prevBlock;
    var th := rec.height;
    var idx0 := s.heightIndex[th := hash];
    var gh, obh := s.headers[g].height, s.headers[s.best].height;
    assert hs[g] == s.headers[g];
    assert gh in s.heightIndex && obh in s.heightIndex;
    assert s.headers[parent].height >= gh by {
      if parent != g {
        assert s.headers[parent].height > s.headers[g].height;
      }
    }
    forall k | k in idx0 && k <= s.headers[parent].height
      ensures k in s.heightIndex && idx0[k] == s.heightIndex[k]
    {
    }
  }

  /** After a new header with more work than the best, the rewritten index
      is canonical for it. */
  lemma ReorgCanonical(p: NetParams, s: Store, hash: Hash, rec: StoredHeader)
    requires Consistent(p, s) && s.genesis.Some?
    requires hash !in s.headers
    requires rec.header.prevBlock in s.headers
    requires rec.height == s.headers[rec.header.prevBlock].height + 1
    requires var hs := s.headers[hash := rec];
      Linked(p, s.genesis.value, hs) && Keeps(s.headers, hs)
    ensures var hs := s.headers[hash := rec];
      && s.genesis.value in hs && hash in hs
      && CanonicalIndex(hs, Reorganize(s.heightIndex, hs, hash, rec.height), s.genesis.value, hash)
  {
    var g := s.genesis.value;
    var hs := s.headers[hash := rec];
    ReorgStart(p, s, hash, rec);
    RewriteCanonical(p, g, s.headers, s.best, s.heightIndex, hs, s.heightIndex[rec.height := hash], hash,
                     hs[hash].header.prevBlock, rec.height - 1);
  }

  /** A new header with more work than the best becomes the best, and the
      store stays consistent. */
  lemma ReorgConsistent(p: NetParams, s: Store, hash: Hash, rec: StoredHeader)
    requires Consistent(p, s) && s.genesis.Some?
    requires hash !in s.headers
    requires rec.header.prevBlock in s.headers
    requires rec.height == s.headers[rec.header.prevBlock].height + 1
    requires var hs := s.headers[hash := rec];
      KeyedByHash(p, hs) && Linked(p, s.genesis.value, hs) && Keeps(s.headers, hs)
    requires rec.chainWork > s.headers[s.best].chainWork
    ensures var hs := s.headers[hash := rec];
      Consistent(p, Store(s.genesis, hs, Reorganize(s.heightIndex, hs, hash, rec.height), hash))
  {
    var hs := s.headers[hash := rec];
    ReorgCanonical(p, s, hash, rec);
    assert MaxWork(hs, hash) by {
      assert MaxWork(s.headers, s.best);
    }
  }

  /** AddHeader keeps the store consistent, never changes the genesis,
      never loses or alters a record, and never lowers the best work. */
  lemma {:induction false} AddHeaderConsistent(p: NetParams, s: Store, raw: seq<Byte>)
    requires Consistent(p, s) && s.genesis.Some?
    ensures var s' := AddHeader(p, s, raw).store;
      && Consistent(p, s') && s'.genesis == s.genesis && Keeps(s.headers, s'.headers)
      && s'.headers[s'.best].chainWork >= s.headers[s.best].chainWork
  {
    var r := AddHeader(p, s, raw);
    match DecodeHeader(raw)
    case None =>
      assert r.store == s;
    case Some(hdr) =>
      var hash := BlockHash(p, hdr);
      if hash in s.headers || hdr.prevBlock !in s.headers {
        assert r.store == s;
      } else {
        var parent := s.headers[hdr.prevBlock];
        if !p.checkHeader(hdr, parent, s.headers) {
          assert r.store == s;
        } else {
          var rec := StoredHeader(hdr, parent.height + 1, parent.chainWork + p.calcWork(hdr.bits));
          var hs := s.headers[hash := rec];
          InsertLinked(p, s, hash, rec);
          if rec.chainWork > s.headers[s.best].chainWork {
            assert r.store == Store(s.genesis, hs, Reorganize(s.heightIndex, hs, hash, rec.height), hash);
            ReorgConsistent(p, s, hash, rec);
          } else {
            assert r.store == s.(headers := hs);
            PassiveConsistent(p, s, hash, rec);
          }
        }
      }
  }
}
