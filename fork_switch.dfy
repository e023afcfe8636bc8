/** Forks of the best branch.  A branch whose cumulative work does not
    exceed the best's is stored but moves neither the best tip nor the
    height index; the header that gives a branch strictly more work makes
    its tip the best, and the height index then follows the new branch
    down to where it leaves the old one, keeping the heights below. */
module ForkSwitch {
  import opened Common
  import opened BtcWire
  import opened HeaderStore
  import opened ForkChoice

  // ---------------------------------------------------------------------
  // Lists of headers
  // ---------------------------------------------------------------------

  /** The hashes of a list of headers. */
  ghost function Hashes(p: NetParams, hdrs: seq<BlockHeader>): set<Hash>
  {
    set i | 0 <= i < |hdrs| :: BlockHash(p, hdrs[i])
  }

  lemma HashesCons(p: NetParams, hdrs: seq<BlockHeader>)
    requires hdrs != []
    ensures Hashes(p, hdrs) == {BlockHash(p, hdrs[0])} + Hashes(p, hdrs[1..])
  {
    forall k | k in Hashes(p, hdrs) ensures k in {BlockHash(p, hdrs[0])} + Hashes(p, hdrs[1..]) {
      var i :| 0 <= i < |hdrs| && k == BlockHash(p, hdrs[i]);
      if i > 0 { assert hdrs[1..][i - 1] == hdrs[i]; }
    }
    forall k | k in Hashes(p, hdrs[1..]) ensures k in Hashes(p, hdrs) {
      var i :| 0 <= i < |hdrs[1..]| && k == BlockHash(p, hdrs[1..][i]);
      assert hdrs[1..][i] == hdrs[i + 1];
    }
  }

  /** Every header of a linked list names its predecessor, the first one the anchor. */
  lemma {:induction false} LinksAt(p: NetParams, anchor: Hash, hdrs: seq<BlockHeader>, i: nat)
    requires LinksFrom(p, anchor, hdrs) && i < |hdrs|
    ensures hdrs[i].prevBlock == if i == 0 then anchor else BlockHash(p, hdrs[i - 1])
    decreases i
  {
    if i > 0 {
      LinksAt(p, BlockHash(p, hdrs[0]), hdrs[1..], i - 1);
      assert hdrs[1..][i - 1] == hdrs[i];
      if i > 1 {
        assert hdrs[1..][i - 2] == hdrs[i - 1];
      }
    }
  }

  lemma {:induction false} LinksFromPrefix(p: NetParams, anchor: Hash, hdrs: seq<BlockHeader>, k: nat)
    requires LinksFrom(p, anchor, hdrs) && k <= |hdrs|
    ensures LinksFrom(p, anchor, hdrs[..k])
    decreases k
  {
    if k > 0 {
      LinksFromPrefix(p, BlockHash(p, hdrs[0]), hdrs[1..], k - 1);
      assert hdrs[..k][1..] == hdrs[1..][..k - 1];
    }
  }

  /** The work of a list up to and including its k-th header. */
  lemma {:induction false} SumWorkSnoc(p: NetParams, hdrs: seq<BlockHeader>, k: nat)
    requires k < |hdrs|
    ensures SumWork(p, hdrs[..k + 1]) == SumWork(p, hdrs[..k]) + p.calcWork(hdrs[k].bits)
    decreases k
  {
    SumWorkPrefix(p, hdrs, k + 1);
    if k == 0 {
      assert hdrs[1..][..0] == [];
    } else {
      SumWorkSnoc(p, hdrs[1..], k - 1);
      SumWorkPrefix(p, hdrs, k);
      assert hdrs[1..][k - 1] == hdrs[k];
    }
  }

  /** All headers of the list are stored in `hs`, each at its place above `base`. */
  ghost predicate ForkStored(p: NetParams, base: StoredHeader, hdrs: seq<BlockHeader>, hs: map<Hash, StoredHeader>)
  {
    forall i :: 0 <= i < |hdrs| ==> StoredAt(p, base, hdrs, hs, i)
  }

  /** The tail stored above the first header, and the first above `b`, store the list above `b`. */
  lemma ShiftStored(p: NetParams, hdrs: seq<BlockHeader>, b: StoredHeader, rec: StoredHeader, hs: map<Hash, StoredHeader>)
    requires hdrs != []
    requires rec == StoredHeader(hdrs[0], b.height + 1, b.chainWork + p.calcWork(hdrs[0].bits))
    requires BlockHash(p, hdrs[0]) in hs && hs[BlockHash(p, hdrs[0])] == rec
    requires ForkStored(p, rec, hdrs[1..], hs)
    ensures ForkStored(p, b, hdrs, hs)
  {
    forall i | 0 <= i < |hdrs|
      ensures StoredAt(p, b, hdrs, hs, i)
    {
      SumWorkPrefix(p, hdrs, i + 1);
      if i == 0 {
        assert hdrs[1..][..0] == [];
      } else {
        assert StoredAt(p, rec, hdrs[1..], hs, i - 1);
        assert hdrs[1..][i - 1] == hdrs[i];
        assert rec.height + 1 + (i - 1) == b.height + 1 + i;
      }
    }
  }

  // ---------------------------------------------------------------------
  // A branch with no more work than the best
  // ---------------------------------------------------------------------

  /** The first header of a lighter branch is stored passively: the best
      and the height index stay, and the batch goes on from the store that
      leaves. */
  lemma LighterNext(p: NetParams, s: Store, a: Hash, hdrs: seq<BlockHeader>)
    requires Consistent(p, s) && s.genesis.Some? && hdrs != []
    requires a in s.headers && LinksFrom(p, a, hdrs) && Unseen(p, s.headers, hdrs)
    requires p.checkHeader(hdrs[0], s.headers[a], s.headers)
    requires s.headers[a].chainWork + SumWork(p, hdrs) <= s.headers[s.best].chainWork
    ensures var s1 := AddHeader(p, s, EncodeHeader(hdrs[0])).store;
      && Consistent(p, s1) && s1.genesis == s.genesis
      && s1.best == s.best && s1.heightIndex == s.heightIndex
      && Keeps(s.headers, s1.headers)
      && SyncBatch(p, s, Encoded(hdrs)) == SyncBatch(p, s1, Encoded(hdrs[1..]))
  {
    TailConditions(p, s.headers, a, hdrs, s.headers[a]);
    StorePassive(p, s, hdrs[0]);
    EncodedSplit(hdrs);
    SyncBatchCons(p, s, Encoded(hdrs));
  }

  /** ... the header joins the records at its place above `a`, and the rest
      of the branch is a lighter branch, from that header, of that store. */
  lemma LighterRest(p: NetParams, s: Store, a: Hash, hdrs: seq<BlockHeader>)
    requires Consistent(p, s) && s.genesis.Some? && hdrs != []
    requires a in s.headers && LinksFrom(p, a, hdrs) && Unseen(p, s.headers, hdrs)
    requires p.checkHeader(hdrs[0], s.headers[a], s.headers)
    requires s.headers[a].chainWork + SumWork(p, hdrs) <= s.headers[s.best].chainWork
    ensures var s1, b, hash := AddHeader(p, s, EncodeHeader(hdrs[0])).store, s.headers[a], BlockHash(p, hdrs[0]);
      && (forall k :: k in s1.headers ==> k in s.headers || k == hash)
      && hash in s1.headers && s1.best in s1.headers
      && s1.headers[hash] == StoredHeader(hdrs[0], b.height + 1, b.chainWork + p.calcWork(hdrs[0].bits))
      && LinksFrom(p, hash, hdrs[1..]) && Unseen(p, s1.headers, hdrs[1..])
      && (Checked(p, s.headers[a], hdrs, s.headers) <==> Checked(p, s1.headers[hash], hdrs[1..], s1.headers))
      && s1.headers[hash].chainWork + SumWork(p, hdrs[1..]) <= s1.headers[s1.best].chainWork
  {
    var b := s.headers[a];
    var rec := StoredHeader(hdrs[0], b.height + 1, b.chainWork + p.calcWork(hdrs[0].bits));
    TailConditions(p, s.headers, a, hdrs, rec);
    CheckedTail(p, b, hdrs, s.headers, rec);
    StorePassive(p, s, hdrs[0]);
    DecodeEncoded(hdrs[0]);
    var s1 := AddHeader(p, s, EncodeHeader(hdrs[0])).store;
    CheckedSame(p, rec, s1.headers[BlockHash(p, hdrs[0])], hdrs[1..], s.headers[BlockHash(p, hdrs[0]) := rec], s1.headers);
  }

  /** A lighter branch: stored header by header, best and index untouched. */
  lemma {:induction false} LighterIndex(p: NetParams, s: Store, a: Hash, hdrs: seq<BlockHeader>)
    requires Consistent(p, s) && s.genesis.Some?
    requires a in s.headers && LinksFrom(p, a, hdrs) && Unseen(p, s.headers, hdrs)
    requires Checked(p, s.headers[a], hdrs, s.headers)
    requires s.headers[a].chainWork + SumWork(p, hdrs) <= s.headers[s.best].chainWork
    ensures var r := SyncBatch(p, s, Encoded(hdrs));
      && r.err == None && r.store.best == s.best && r.store.heightIndex == s.heightIndex
      && (forall k :: k in r.store.headers ==> k in s.headers || k in Hashes(p, hdrs))
      && ForkStored(p, s.headers[a], hdrs, r.store.headers)
    decreases |hdrs|
  {
    if hdrs != [] {
      var b := s.headers[a];
      var rec := StoredHeader(hdrs[0], b.height + 1, b.chainWork + p.calcWork(hdrs[0].bits));
      var hash := BlockHash(p, hdrs[0]);
      CheckedTail(p, b, hdrs, s.headers, rec);
      LighterNext(p, s, a, hdrs);
      LighterRest(p, s, a, hdrs);
      var s1 := AddHeader(p, s, EncodeHeader(hdrs[0])).store;
      LighterIndex(p, s1, hash, hdrs[1..]);
      var r := SyncBatch(p, s1, Encoded(hdrs[1..])).store;
      assert s1.headers[hash] == rec && Keeps(s1.headers, r.headers);
      assert r.headers[hash] == rec;
      ShiftStored(p, hdrs, b, rec, r.headers);
      HashesCons(p, hdrs);
    } else {
      assert Hashes(p, hdrs) == {};
    }
  }

  /** A lighter branch with a header the chain's checks refuse where the
      batch meets it fails with InvalidProofOfWork; the headers before it
      are stored, and the best and the height index stay as they were. */
  lemma {:induction false} LighterRefused(p: NetParams, s: Store, a: Hash, hdrs: seq<BlockHeader>)
    requires Consistent(p, s) && s.genesis.Some?
    requires a in s.headers && LinksFrom(p, a, hdrs) && Unseen(p, s.headers, hdrs)
    requires !Checked(p, s.headers[a], hdrs, s.headers)
    requires s.headers[a].chainWork + SumWork(p, hdrs) <= s.headers[s.best].chainWork
    ensures var r := SyncBlockHeader(p, s, Encoded(hdrs));
      && r.err == Some(InvalidProofOfWork)
      && r.store.best == s.best && r.store.heightIndex == s.heightIndex
    decreases |hdrs|
  {
    var b := s.headers[a];
    var rec := StoredHeader(hdrs[0], b.height + 1, b.chainWork + p.calcWork(hdrs[0].bits));
    CheckedTail(p, b, hdrs, s.headers, rec);
    TailConditions(p, s.headers, a, hdrs, rec);
    EncodedSplit(hdrs);
    if !p.checkHeader(hdrs[0], b, s.headers) {
      DecodeEncoded(hdrs[0]);
      assert AddHeader(p, s, Encoded(hdrs)[0]) == Step(s, Some(InvalidProofOfWork));
      SyncBatchStops(p, s, Encoded(hdrs));
    } else {
      LighterNext(p, s, a, hdrs);
      LighterRest(p, s, a, hdrs);
      var s1 := AddHeader(p, s, EncodeHeader(hdrs[0])).store;
      LighterRefused(p, s1, BlockHash(p, hdrs[0]), hdrs[1..]);
    }
  }

  /** GetHeaderByHash finds the i-th header of the list at its place above `base`. */
  ghost predicate FoundAt(p: NetParams, r: Store, base: StoredHeader, hdrs: seq<BlockHeader>, i: nat)
    requires Consistent(p, r) && i < |hdrs|
  {
    HeaderByHash(p, r, BlockHash(p, hdrs[i])) ==
      Ok(StoredHeader(hdrs[i], base.height + 1 + i, base.chainWork + SumWork(p, hdrs[..i + 1])))
  }

  /** A new branch from a stored header `a` whose cumulative work does not
      exceed the best's is accepted, and the best header and every
      GetHeaderByHeight answer stay as they were. */
  lemma {:induction false} LighterForkKeepsBest(p: NetParams, s: Store, a: Hash, hdrs: seq<BlockHeader>)
    requires Consistent(p, s) && s.genesis.Some?
    requires a in s.headers && LinksFrom(p, a, hdrs) && Unseen(p, s.headers, hdrs)
    requires Checked(p, s.headers[a], hdrs, s.headers)
    requires s.headers[a].chainWork + SumWork(p, hdrs) <= s.headers[s.best].chainWork
    ensures var r := SyncBlockHeader(p, s, Encoded(hdrs));
      && r.err == None
      && BestHeader(p, r.store) == BestHeader(p, s)
      && forall h: nat :: HeaderByHeight(p, r.store, h) == HeaderByHeight(p, s, h)
  {
    LighterIndex(p, s, a, hdrs);
    var r := SyncBlockHeader(p, s, Encoded(hdrs)).store;
    forall h: nat
      ensures HeaderByHeight(p, r, h) == HeaderByHeight(p, s, h)
    {
      ByHeight(p, r, h);
      ByHeight(p, s, h);
      if h in s.heightIndex {
        assert s.heightIndex[h] in s.headers;
      }
    }
  }

  /** ... and every header of that branch is found by its hash, with its
      height and cumulative work. */
  lemma {:induction false} LighterForkByHash(p: NetParams, s: Store, a: Hash, hdrs: seq<BlockHeader>)
    requires Consistent(p, s) && s.genesis.Some?
    requires a in s.headers && LinksFrom(p, a, hdrs) && Unseen(p, s.headers, hdrs)
    requires Checked(p, s.headers[a], hdrs, s.headers)
    requires s.headers[a].chainWork + SumWork(p, hdrs) <= s.headers[s.best].chainWork
    ensures forall i :: 0 <= i < |hdrs| ==>
      FoundAt(p, SyncBlockHeader(p, s, Encoded(hdrs)).store, s.headers[a], hdrs, i)
  {
    LighterIndex(p, s, a, hdrs);
    var r := SyncBlockHeader(p, s, Encoded(hdrs)).store;
    forall i | 0 <= i < |hdrs|
      ensures FoundAt(p, r, s.headers[a], hdrs, i)
    {
      assert StoredAt(p, s.headers[a], hdrs, r.headers, i);
    }
  }

  // ---------------------------------------------------------------------
  // Ancestors
  // ---------------------------------------------------------------------

  /** Walking back `m + d` blocks is walking back `m`, then `d`. */
  lemma {:induction false} AncestorAdd(hs: map<Hash, StoredHeader>, k: Hash, m: nat, d: nat)
    ensures Ancestor(hs, k, m + d) == Ancestor(hs, Ancestor(hs, k, m), d)
    decreases d
  {
    if d > 0 {
      AncestorAdd(hs, k, m, d - 1);
    }
  }

  /** Walking back from the last header of a stored linked list visits the
      list in reverse order and ends at its anchor. */
  lemma {:induction false} ChainAncestor(p: NetParams, base: StoredHeader, a: Hash, hdrs: seq<BlockHeader>,
                                         hs: map<Hash, StoredHeader>, k: nat)
    requires LinksFrom(p, a, hdrs) && ForkStored(p, base, hdrs, hs) && k <= |hdrs| && hdrs != []
    ensures Ancestor(hs, BlockHash(p, hdrs[|hdrs| - 1]), k) ==
            if k == |hdrs| then a else BlockHash(p, hdrs[|hdrs| - 1 - k])
    decreases k
  {
    var n := |hdrs|;
    if k > 0 {
      ChainAncestor(p, base, a, hdrs, hs, k - 1);
      assert StoredAt(p, base, hdrs, hs, n - k);
      LinksAt(p, a, hdrs, n - k);
    }
  }

  // ---------------------------------------------------------------------
  // A branch that gets more work than the best
  // ---------------------------------------------------------------------

  /** The stored parent of a list's last header, when the rest of the list is stored above `a`. */
  lemma LastParent(p: NetParams, a: Hash, hdrs: seq<BlockHeader>, hs: map<Hash, StoredHeader>)
    requires hdrs != [] && a in hs && LinksFrom(p, a, hdrs)
    requires ForkStored(p, hs[a], hdrs[..|hdrs| - 1], hs)
    ensures var n, pa := |hdrs|, hdrs[|hdrs| - 1].prevBlock;
      && pa in hs && hs[pa].height == hs[a].height + n - 1
      && hs[pa].chainWork == hs[a].chainWork + SumWork(p, hdrs[..n - 1])
  {
    var n := |hdrs|;
    LinksAt(p, a, hdrs, n - 1);
    if n > 1 {
      var pre := hdrs[..n - 1];
      assert StoredAt(p, hs[a], pre, hs, n - 2);
      assert pre[n - 2] == hdrs[n - 2] && pre[..n - 1] == pre;
    } else {
      assert hdrs[..0] == [];
    }
  }

  /** The chain's proof-of-work and difficulty rules accept the list's last
      header against its stored parent and the stored headers. */
  ghost predicate LastChecked(p: NetParams, hdrs: seq<BlockHeader>, hs: map<Hash, StoredHeader>)
    requires hdrs != []
  {
    var last := hdrs[|hdrs| - 1];
    last.prevBlock in hs && p.checkHeader(last, hs[last.prevBlock], hs)
  }

  /** The header that completes a branch above `a` with more cumulative work
      than the best becomes the best, stored at its place above `a`. */
  lemma Overtake(p: NetParams, s: Store, a: Hash, hdrs: seq<BlockHeader>)
    requires Consistent(p, s) && s.genesis.Some? && hdrs != []
    requires a in s.headers && LinksFrom(p, a, hdrs)
    requires ForkStored(p, s.headers[a], hdrs[..|hdrs| - 1], s.headers)
    requires LastChecked(p, hdrs, s.headers)
    requires BlockHash(p, hdrs[|hdrs| - 1]) !in s.headers
    requires s.headers[a].chainWork + SumWork(p, hdrs) > s.headers[s.best].chainWork
    ensures var r := AddHeader(p, s, EncodeHeader(hdrs[|hdrs| - 1]));
      && r.err == None && r.store.best == BlockHash(p, hdrs[|hdrs| - 1])
      && StoredAt(p, s.headers[a], hdrs, r.store.headers, |hdrs| - 1)
  {
    var n, last := |hdrs|, hdrs[|hdrs| - 1];
    LastParent(p, a, hdrs, s.headers);
    SumWorkSnoc(p, hdrs, n - 1);
    assert hdrs[..n] == hdrs;
    StoreHeavier(p, s, last);
  }

  /** The list's last header, stored above the rest, completes the list. */
  lemma StoredExtend(p: NetParams, b: StoredHeader, hdrs: seq<BlockHeader>, hs: map<Hash, StoredHeader>,
                     hs': map<Hash, StoredHeader>)
    requires hdrs != [] && ForkStored(p, b, hdrs[..|hdrs| - 1], hs) && Keeps(hs, hs')
    requires StoredAt(p, b, hdrs, hs', |hdrs| - 1)
    ensures ForkStored(p, b, hdrs, hs')
  {
    var n := |hdrs|;
    forall i | 0 <= i < n - 1
      ensures StoredAt(p, b, hdrs, hs', i)
    {
      assert StoredAt(p, b, hdrs[..n - 1], hs, i);
      assert hdrs[..n - 1][i] == hdrs[i] && hdrs[..n - 1][..i + 1] == hdrs[..i + 1];
    }
  }

  /** Once the last header of a stored list above `a` is the best, a header
      of the list that the walk back from the best reaches is answered by
      GetHeaderByHeight at its height. */
  lemma ForkAnswers(p: NetParams, r: Store, a: Hash, hdrs: seq<BlockHeader>, i: nat)
    requires Consistent(p, r) && r.genesis.Some? && hdrs != [] && i < |hdrs| && a in r.headers
    requires StoredAt(p, r.headers[a], hdrs, r.headers, |hdrs| - 1) && StoredAt(p, r.headers[a], hdrs, r.headers, i)
    requires r.best == BlockHash(p, hdrs[|hdrs| - 1])
    requires Ancestor(r.headers, r.best, |hdrs| - 1 - i) == BlockHash(p, hdrs[i])
    ensures AnswersAt(p, r, r.headers[a], hdrs, i)
  {
    var n, b := |hdrs|, r.headers[a];
    AboveGenesis(p, r, a);
    IndexWalk(p, r, r.best, b.height + 1 + i, n - 1 - i);
    AnswerIndexed(p, r, b, hdrs, i);
  }

  /** A height whose index entry is the i-th header of a stored list answers that header. */
  lemma AnswerIndexed(p: NetParams, r: Store, b: StoredHeader, hdrs: seq<BlockHeader>, i: nat)
    requires Consistent(p, r) && i < |hdrs| && StoredAt(p, b, hdrs, r.headers, i)
    requires b.height + 1 + i in r.heightIndex && r.heightIndex[b.height + 1 + i] == BlockHash(p, hdrs[i])
    ensures AnswersAt(p, r, b, hdrs, i)
  {
  }

  lemma ChainAncestorAt(p: NetParams, base: StoredHeader, a: Hash, hdrs: seq<BlockHeader>,
                        hs: map<Hash, StoredHeader>, i: nat)
    requires LinksFrom(p, a, hdrs) && ForkStored(p, base, hdrs, hs) && i < |hdrs|
    ensures Ancestor(hs, BlockHash(p, hdrs[|hdrs| - 1]), |hdrs| - 1 - i) == BlockHash(p, hdrs[i])
  {
    ChainAncestor(p, base, a, hdrs, hs, |hdrs| - 1 - i);
  }

  /** Every stored header lies at or above the genesis. */
  lemma AboveGenesis(p: NetParams, s: Store, a: Hash)
    requires Consistent(p, s) && s.genesis.Some? && a in s.headers
    ensures s.headers[s.genesis.value].height <= s.headers[a].height
  {
    if a != s.genesis.value {
      assert s.headers[a].height > s.headers[s.genesis.value].height;
    }
  }

  /** Below an index entry `tip`, the index entry at each height is the walk
      back from `tip` by the difference in height. */
  lemma IndexWalk(p: NetParams, s: Store, tip: Hash, h: nat, d: nat)
    requires Consistent(p, s) && s.genesis.Some? && tip in s.headers
    requires s.headers[tip].height in s.heightIndex && s.heightIndex[s.headers[tip].height] == tip
    requires s.headers[s.genesis.value].height <= h && h + d == s.headers[tip].height
    ensures h in s.heightIndex && s.heightIndex[h] == Ancestor(s.headers, tip, d)
  {
    IndexAncestry(p, s, s.headers[tip].height, d);
  }

  /** Down the index from an entry `a`, the walk back from `a` stays among
      the stored records, so any map keeping them walks back the same way. */
  lemma {:induction false} IndexedKept(p: NetParams, s: Store, hs': map<Hash, StoredHeader>, a: Hash, d: nat)
    requires Consistent(p, s) && s.genesis.Some? && a in s.headers && Keeps(s.headers, hs')
    requires s.headers[a].height in s.heightIndex && s.heightIndex[s.headers[a].height] == a
    requires s.headers[s.genesis.value].height + d <= s.headers[a].height
    ensures Ancestor(hs', a, d) == Ancestor(s.headers, a, d)
    decreases d
  {
    if d > 0 {
      IndexedKept(p, s, hs', a, d - 1);
      IndexAncestry(p, s, s.headers[a].height, d - 1);
      assert Ancestor(s.headers, a, d - 1) in s.headers;
    }
  }

  /** Below an entry `a` of the old index, each entry is the walk back from `a`,
      also in any larger record map. */
  lemma OldIndexBelow(p: NetParams, s: Store, hs': map<Hash, StoredHeader>, a: Hash, h: nat, d: nat)
    requires Consistent(p, s) && s.genesis.Some? && a in s.headers && Keeps(s.headers, hs')
    requires s.headers[a].height in s.heightIndex && s.heightIndex[s.headers[a].height] == a
    requires s.headers[s.genesis.value].height <= h && h + d == s.headers[a].height
    ensures h in s.heightIndex && s.heightIndex[h] == Ancestor(hs', a, d)
  {
    IndexedKept(p, s, hs', a, d);
    IndexWalk(p, s, a, h, d);
  }

  /** Below a fork point `a` on the old best branch, when the new best lies `m`
      above `a` and walks back through `a`, GetHeaderByHeight answers as before. */
  lemma BelowFork(p: NetParams, s: Store, r: Store, a: Hash, m: nat, h: nat)
    requires Consistent(p, s) && Consistent(p, r) && s.genesis.Some? && r.genesis == s.genesis
    requires Keeps(s.headers, r.headers)
    requires a in s.headers && s.headers[a].height in s.heightIndex && s.heightIndex[s.headers[a].height] == a
    requires h <= s.headers[a].height && r.headers[r.best].height == s.headers[a].height + m
    requires Ancestor(r.headers, r.best, m) == a
    ensures HeaderByHeight(p, r, h) == HeaderByHeight(p, s, h)
  {
    var g := s.genesis.value;
    assert r.headers[g] == s.headers[g];
    if h >= s.headers[g].height {
      var d := s.headers[a].height - h;
      OldIndexBelow(p, s, r.headers, a, h, d);
      AncestorAdd(r.headers, r.best, m, d);
      IndexWalk(p, r, r.best, h, m + d);
      SameAtHeight(p, s, r, h);
    }
  }

  lemma AllBelowFork(p: NetParams, s: Store, r: Store, a: Hash, m: nat)
    requires Consistent(p, s) && Consistent(p, r) && s.genesis.Some? && r.genesis == s.genesis
    requires Keeps(s.headers, r.headers)
    requires a in s.headers && s.headers[a].height in s.heightIndex && s.heightIndex[s.headers[a].height] == a
    requires r.headers[r.best].height == s.headers[a].height + m
    requires Ancestor(r.headers, r.best, m) == a
    ensures forall h: nat :: h <= s.headers[a].height ==> HeaderByHeight(p, r, h) == HeaderByHeight(p, s, h)
  {
    forall h: nat | h <= s.headers[a].height
      ensures HeaderByHeight(p, r, h) == HeaderByHeight(p, s, h)
    {
      BelowFork(p, s, r, a, m, h);
    }
  }

  /** A height indexed to the same record in both stores answers the same. */
  lemma SameAtHeight(p: NetParams, s: Store, r: Store, h: nat)
    requires Consistent(p, s) && Consistent(p, r) && Keeps(s.headers, r.headers)
    requires h in s.heightIndex && h in r.heightIndex && r.heightIndex[h] == s.heightIndex[h]
    ensures HeaderByHeight(p, r, h) == HeaderByHeight(p, s, h)
  {
    assert s.heightIndex[h] in s.headers;
  }

  /** After that header, the whole branch is stored above `a` and its last header is the best. */
  lemma OvertakeStore(p: NetParams, s: Store, a: Hash, hdrs: seq<BlockHeader>)
    requires Consistent(p, s) && s.genesis.Some? && hdrs != []
    requires a in s.headers && LinksFrom(p, a, hdrs)
    requires ForkStored(p, s.headers[a], hdrs[..|hdrs| - 1], s.headers)
    requires LastChecked(p, hdrs, s.headers)
    requires BlockHash(p, hdrs[|hdrs| - 1]) !in s.headers
    requires s.headers[a].chainWork + SumWork(p, hdrs) > s.headers[s.best].chainWork
    ensures var r := SyncBlockHeader(p, s, [EncodeHeader(hdrs[|hdrs| - 1])]);
      && r.err == None && r.store.best == BlockHash(p, hdrs[|hdrs| - 1])
      && ForkStored(p, s.headers[a], hdrs, r.store.headers)
  {
    var last := hdrs[|hdrs| - 1];
    Overtake(p, s, a, hdrs);
    SyncOne(p, s, EncodeHeader(last));
    AddHeaderConsistent(p, s, EncodeHeader(last));
    var r := AddHeader(p, s, EncodeHeader(last)).store;
    StoredExtend(p, s.headers[a], hdrs, s.headers, r.headers);
  }

  /** GetBestBlockHeader answers the last header of the list, `|hdrs|` above
      `base`, with the cumulative work of the whole list. */
  ghost predicate BestIsLast(p: NetParams, r: Store, base: StoredHeader, hdrs: seq<BlockHeader>)
    requires Consistent(p, r) && hdrs != []
  {
    BestHeader(p, r) ==
      Ok(StoredHeader(hdrs[|hdrs| - 1], base.height + |hdrs|, base.chainWork + SumWork(p, hdrs)))
  }

  /** The header that gives a stored branch above `a` more work than the
      best becomes the best header, at `a`'s height + the branch's length,
      with the branch's cumulative work. */
  lemma {:induction false} OvertakeBest(p: NetParams, s: Store, a: Hash, hdrs: seq<BlockHeader>)
    requires Consistent(p, s) && s.genesis.Some? && hdrs != []
    requires a in s.headers && LinksFrom(p, a, hdrs)
    requires ForkStored(p, s.headers[a], hdrs[..|hdrs| - 1], s.headers)
    requires LastChecked(p, hdrs, s.headers)
    requires BlockHash(p, hdrs[|hdrs| - 1]) !in s.headers
    requires s.headers[a].chainWork + SumWork(p, hdrs) > s.headers[s.best].chainWork
    ensures SyncBlockHeader(p, s, [EncodeHeader(hdrs[|hdrs| - 1])]).err == None
    ensures BestIsLast(p, SyncBlockHeader(p, s, [EncodeHeader(hdrs[|hdrs| - 1])]).store, s.headers[a], hdrs)
  {
    OvertakeStore(p, s, a, hdrs);
    var r := SyncBlockHeader(p, s, [EncodeHeader(hdrs[|hdrs| - 1])]).store;
    LastIsBest(p, r, s.headers[a], hdrs);
  }

  lemma LastIsBest(p: NetParams, r: Store, b: StoredHeader, hdrs: seq<BlockHeader>)
    requires Consistent(p, r) && r.genesis.Some? && hdrs != []
    requires StoredAt(p, b, hdrs, r.headers, |hdrs| - 1) && r.best == BlockHash(p, hdrs[|hdrs| - 1])
    ensures BestIsLast(p, r, b, hdrs)
  {
    assert hdrs[..|hdrs|] == hdrs;
    BestIsBestRecord(p, r);
  }

  /** ... and GetHeaderByHeight then answers the branch's headers at their heights. */
  lemma {:induction false} OvertakeHeights(p: NetParams, s: Store, a: Hash, hdrs: seq<BlockHeader>)
    requires Consistent(p, s) && s.genesis.Some? && hdrs != []
    requires a in s.headers && LinksFrom(p, a, hdrs)
    requires ForkStored(p, s.headers[a], hdrs[..|hdrs| - 1], s.headers)
    requires LastChecked(p, hdrs, s.headers)
    requires BlockHash(p, hdrs[|hdrs| - 1]) !in s.headers
    requires s.headers[a].chainWork + SumWork(p, hdrs) > s.headers[s.best].chainWork
    ensures var r := SyncBlockHeader(p, s, [EncodeHeader(hdrs[|hdrs| - 1])]).store;
      forall i :: 0 <= i < |hdrs| ==> AnswersAt(p, r, s.headers[a], hdrs, i)
  {
    OvertakeStore(p, s, a, hdrs);
    var r := SyncBlockHeader(p, s, [EncodeHeader(hdrs[|hdrs| - 1])]).store;
    assert r.headers[a] == s.headers[a];
    forall i | 0 <= i < |hdrs|
      ensures AnswersAt(p, r, s.headers[a], hdrs, i)
    {
      assert StoredAt(p, s.headers[a], hdrs, r.headers, |hdrs| - 1);
      assert StoredAt(p, s.headers[a], hdrs, r.headers, i);
      ChainAncestorAt(p, s.headers[a], a, hdrs, r.headers, i);
      ForkAnswers(p, r, a, hdrs, i);
    }
  }

  /** ... and when `a` is on the best branch, the heights up to `a` answer as before. */
  lemma {:induction false} OvertakeKeepsBelow(p: NetParams, s: Store, a: Hash, hdrs: seq<BlockHeader>)
    requires Consistent(p, s) && s.genesis.Some? && hdrs != []
    requires a in s.headers && LinksFrom(p, a, hdrs)
    requires s.headers[a].height in s.heightIndex && s.heightIndex[s.headers[a].height] == a
    requires ForkStored(p, s.headers[a], hdrs[..|hdrs| - 1], s.headers)
    requires LastChecked(p, hdrs, s.headers)
    requires BlockHash(p, hdrs[|hdrs| - 1]) !in s.headers
    requires s.headers[a].chainWork + SumWork(p, hdrs) > s.headers[s.best].chainWork
    ensures forall h: nat :: h <= s.headers[a].height ==>
      HeaderByHeight(p, SyncBlockHeader(p, s, [EncodeHeader(hdrs[|hdrs| - 1])]).store, h) == HeaderByHeight(p, s, h)
  {
    OvertakeWalk(p, s, a, hdrs);
    var r := SyncBlockHeader(p, s, [EncodeHeader(hdrs[|hdrs| - 1])]).store;
    AllBelowFork(p, s, r, a, |hdrs|);
  }

  /** After that header, the best lies `|hdrs|` above `a` and walks back through `a`. */
  lemma OvertakeWalk(p: NetParams, s: Store, a: Hash, hdrs: seq<BlockHeader>)
    requires Consistent(p, s) && s.genesis.Some? && hdrs != []
    requires a in s.headers && LinksFrom(p, a, hdrs)
    requires ForkStored(p, s.headers[a], hdrs[..|hdrs| - 1], s.headers)
    requires LastChecked(p, hdrs, s.headers)
    requires BlockHash(p, hdrs[|hdrs| - 1]) !in s.headers
    requires s.headers[a].chainWork + SumWork(p, hdrs) > s.headers[s.best].chainWork
    ensures var r := SyncBlockHeader(p, s, [EncodeHeader(hdrs[|hdrs| - 1])]).store;
      && r.best in r.headers && r.headers[r.best].height == s.headers[a].height + |hdrs|
      && Ancestor(r.headers, r.best, |hdrs|) == a
  {
    OvertakeStore(p, s, a, hdrs);
    var r := SyncBlockHeader(p, s, [EncodeHeader(hdrs[|hdrs| - 1])]).store;
    assert StoredAt(p, s.headers[a], hdrs, r.headers, |hdrs| - 1);
    ChainAncestor(p, s.headers[a], a, hdrs, r.headers, |hdrs|);
  }
}
