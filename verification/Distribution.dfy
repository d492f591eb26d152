/** Sharding with global statistics (the end of engine/src/lexical/index_builder.cc) and the broker's merge of
    the shards' answers: a sharded search gives what one index of the whole collection gives. */
module Distribution {
  import opened Wrappers
  import opened ByteStrings
  import opened Codec
  import opened Postings
  import opened Bm25
  import opened TermBuilder
  import opened IndexBuilder
  import opened BuiltIndex
  import opened Rounding
  import opened Ranking
  import opened Scoring
  import opened TermAtATime
  import opened Engine
  import opened Fusion
  import Search

  /** How one shard is built and searched. */
  datatype Plan = Plan(alg: Search.Algorithm, codec: CodecKind, hash: Bytes -> nat, cap: nat)

  ghost predicate Ascends(ids: seq<nat>, n: nat)
    ensures Ascends(ids, n) ==> forall i :: 0 <= i < |ids| ==> ids[i] < n
  {
    (forall i :: 0 <= i < |ids| ==> ids[i] < n) && (forall i, j :: 0 <= i < j < |ids| ==> ids[i] < ids[j])
  }

  /** Every document of a collection of `n` is in some shard; a shard lists its documents in ascending order. */
  ghost predicate Sharded(shards: seq<seq<nat>>, n: nat) {
    && (forall i :: 0 <= i < |shards| ==> Ascends(shards[i], n))
    && (forall d: nat :: d < n ==> InShard(shards, d))
  }

  ghost predicate InShard(shards: seq<seq<nat>>, d: nat) {
    exists i :: 0 <= i < |shards| && d in shards[i]
  }

  /** The documents of a shard. */
  function Part(docs: seq<Doc>, ids: seq<nat>): (part: seq<Doc>)
    requires forall i :: 0 <= i < |ids| ==> ids[i] < |docs|
    ensures |part| == |ids| && forall i :: 0 <= i < |part| ==> part[i] == docs[ids[i]]
  {
    seq(|ids|, i requires 0 <= i < |ids| => docs[ids[i]])
  }

  /** A shard's collection: its own documents' lengths, everybody's average length. */
  function ShardCollection(col: Collection, part: seq<Doc>): (s: Collection)
    ensures s.rf == col.rf && s.avgdl == col.avgdl && LengthsOf(s, part)
  {
    col.(dls := seq(|part|, i requires 0 <= i < |part| => part[i].len))
  }

  lemma PartFits(docs: seq<Doc>, ids: seq<nat>)
    requires ValidDocs(docs) && Ascends(ids, |docs|)
    ensures ValidDocs(Part(docs, ids)) && |ids| <= |docs|
  {
    hide ValidDoc;
    AscendsSize(ids, |docs|);
  }

  lemma {:induction false} AscendsSize(ids: seq<nat>, n: nat)
    requires Ascends(ids, n)
    ensures |ids| <= n
    decreases |ids|
  {
    if ids != [] {
      AscendsSize(ids[..|ids| - 1], ids[|ids| - 1]);
    }
  }

  lemma ShardParams(col: Collection, p: QueryParams, docs: seq<Doc>, ids: seq<nat>, raw: seq<Bytes>)
    requires ValidParams(col, p) && ValidDocs(docs) && LengthsOf(col, docs) && Ascends(ids, |docs|)
    requires SafeFor(col, p, docs, raw)
    ensures var part := Part(docs, ids);
            ValidDocs(part) && ValidParams(ShardCollection(col, part), p)
            && SafeFor(ShardCollection(col, part), p, part, raw)
  {
    hide ValidDoc, FloatRounding, SafeNorms, Matches;
    PartFits(docs, ids);
  }

  /** A term of a shard is a term of the collection: no shard's build fails for want of global statistics. */
  lemma PartTerm(docs: seq<Doc>, ids: seq<nat>, t: Bytes)
    requires ValidDocs(docs) && Ascends(ids, |docs|) && ValidDocs(Part(docs, ids))
    requires Inverted(Part(docs, ids), t) != []
    ensures Inverted(docs, t) != []
  {
    hide ValidDoc, TfIn, Inverted;
    var part := Part(docs, ids);
    var d := ListOf(part, t).docs[0];
    ListHas(part, t, d);
    ListHas(docs, t, ids[d]);
  }

  /** Build a shard's index and read the global frequencies of its terms. */
  method BuildShard(col: Collection, plan: Plan, part: seq<Doc>, ghost ids: seq<nat>, global: Index,
                    ghost whole: Collection, ghost wholeCodec: CodecKind, ghost docs: seq<Doc>)
    returns (s: Served)
    requires ValidCollection(col) && ValidDocs(part) && LengthsOf(col, part)
    requires ValidDocs(docs) && Ascends(ids, |docs|) && part == Part(docs, ids)
    requires whole.avgdl > 0.0 && IsIndexOf(global, whole, wholeCodec, docs)
    ensures Serves(s, col, plan.codec, part, docs)
  {
    hide *;
    DocsFit(docs);
    var index := Build(col, plan.codec, part, plan.hash, plan.cap);
    var gdf := GlobalDf(index, global, whole, wholeCodec, docs);
    forall t | t in index.strs ensures Inverted(docs, t) != [] {
      HasPostings(index, col, plan.codec, part, t);
      PartTerm(docs, ids, t);
    }
    assert gdf.Some?;
    s := Served(index, gdf.value);
    ShardServes(s, col, plan.codec, part, docs);
  }

  lemma HasPostings(index: Index, col: Collection, c: CodecKind, docs: seq<Doc>, t: Bytes)
    requires col.avgdl > 0.0 && |docs| <= MAX_DOCS && IsIndexOf(index, col, c, docs) && t in index.strs
    ensures Inverted(docs, t) != []
  {
  }

  lemma ShardServes(s: Served, col: Collection, c: CodecKind, docs: seq<Doc>, stats: seq<Doc>)
    requires col.avgdl > 0.0 && |docs| <= MAX_DOCS && |stats| <= MAX_DOCS && IsIndexOf(s.index, col, c, docs)
    requires |s.globalDf| == |s.index.strs|
    requires forall i :: 0 <= i < |s.globalDf| ==> s.globalDf[i] == |Inverted(stats, s.index.strs[i])|
    ensures Serves(s, col, c, docs, stats)
  {
    hide Inverted, Less, Built;
  }

  /** What a shard finds, under the names the documents have in the whole collection. */
  ghost function ShardMatching(m: Arithmetic, rf: real -> real, p: QueryParams, docs: seq<Doc>, ids: seq<nat>,
                               raw: seq<Bytes>):
    (s: set<ScoredDoc>)
    requires p.n.avgdl > 0.0 && |docs| <= MAX_DOCS && Ascends(ids, |docs|)
  {
    RenamedSet(Matching(m, rf, p, Part(docs, ids), docs, raw), ids)
  }

  /** A document scores the same in its shard as in the whole. */
  lemma ShardMatchingIs(m: Arithmetic, rf: real -> real, p: QueryParams, docs: seq<Doc>, ids: seq<nat>, raw: seq<Bytes>)
    requires p.n.avgdl > 0.0 && |docs| <= MAX_DOCS && Ascends(ids, |docs|)
    ensures forall x :: x in ShardMatching(m, rf, p, docs, ids, raw) <==>
              x in Matching(m, rf, p, docs, docs, raw) && x.doc in ids
  {
    hide Ascends, Matching, DocScore, Matches;
    var local, global := Matching(m, rf, p, Part(docs, ids), docs, raw), Matching(m, rf, p, docs, docs, raw);
    forall x ensures x in ShardMatching(m, rf, p, docs, ids, raw) <==> x in global && x.doc in ids {
      if x in ShardMatching(m, rf, p, docs, ids, raw) {
        var y :| y in local && x == ScoredDoc(ids[y.doc], y.score);
      }
      if x in global && x.doc in ids {
        var i: nat :| i < |ids| && ids[i] == x.doc;
        assert ScoredDoc(i, x.score) in local;
      }
    }
  }

  /** One shard's answer. */
  method SearchShard(m: Arithmetic, col: Collection, p: QueryParams, docs: seq<Doc>, ids: seq<nat>, plan: Plan,
                     global: Index, ghost wholeCodec: CodecKind, raw: seq<Bytes>, k: nat)
    returns (list: seq<ScoredDoc>)
    requires Ieee(m) && ValidParams(col, p) && ValidDocs(docs) && LengthsOf(col, docs) && SafeFor(col, p, docs, raw)
    requires |Engine.DistinctTerms(raw)| <= MAX_TERMS
    requires Ascends(ids, |docs|) && IsIndexOf(global, col, wholeCodec, docs)
    ensures IsTopK(list, ShardMatching(m, col.rf, p, docs, ids, raw), k)
  {
    hide *;
    var part := Part(docs, ids);
    var own := ShardCollection(col, part);
    ShardParams(col, p, docs, ids, raw);
    CollectionOk(own, p);
    DocsFit(docs);
    var s := BuildShard(own, plan, part, ids, global, col, wholeCodec, docs);
    var buf := new Accumulators();
    var hits := SearchIndex(plan.alg, m, own, p, s, part, docs, plan.codec, raw, k, |part|, buf);
    IdsAscend(ids, |docs|);
    RenamedTopK(hits, Matching(m, col.rf, p, part, docs, raw), ids, k);
    list := Renamed(hits, ids);
    ShardMatchingDef(m, col.rf, p, docs, ids, raw);
  }

  lemma IdsAscend(ids: seq<nat>, n: nat)
    requires Ascends(ids, n)
    ensures forall i, j :: 0 <= i < j < |ids| ==> ids[i] < ids[j]
  {
  }

  lemma ShardMatchingDef(m: Arithmetic, rf: real -> real, p: QueryParams, docs: seq<Doc>, ids: seq<nat>,
                         raw: seq<Bytes>)
    requires p.n.avgdl > 0.0 && |docs| <= MAX_DOCS && Ascends(ids, |docs|)
    ensures ShardMatching(m, rf, p, docs, ids, raw) == RenamedSet(Matching(m, rf, p, Part(docs, ids), docs, raw), ids)
  {
  }

  /** Search every shard and merge the answers. */
  method SearchShards(m: Arithmetic, col: Collection, p: QueryParams, docs: seq<Doc>, shards: seq<seq<nat>>,
                      plan: nat -> Plan, wholeCodec: CodecKind, wholeHash: Bytes -> nat, wholeCap: nat, raw: seq<Bytes>,
                      k: nat)
    returns (hits: seq<ScoredDoc>)
    requires Ieee(m) && ValidParams(col, p) && ValidDocs(docs) && LengthsOf(col, docs) && SafeFor(col, p, docs, raw)
    requires |Engine.DistinctTerms(raw)| <= MAX_TERMS
    requires Sharded(shards, |docs|)
    ensures IsTopK(hits, Matching(m, col.rf, p, docs, docs, raw), k)
  {
    hide *;
    CollectionOk(col, p);
    DocsFit(docs);
    var global := Build(col, wholeCodec, docs, wholeHash, wholeCap);
    var lists: seq<seq<ScoredDoc>> := [];
    for i := 0 to |shards|
      invariant |lists| == i
      invariant forall j :: 0 <= j < i ==> ShardAnswered(m, col.rf, p, docs, shards[j], raw, k, lists[j])
    {
      ShardAt(shards, |docs|, i);
      var list := SearchShard(m, col, p, docs, shards[i], plan(i), global, wholeCodec, raw, k);
      ShardIsAnswered(m, col.rf, p, docs, shards[i], raw, k, list);
      lists := lists + [list];
    }
    hits := MergeTopK(lists, k);
    ShardsTogether(m, col.rf, p, docs, shards, raw, k, lists, hits);
  }

  ghost predicate ShardAnswered(m: Arithmetic, rf: real -> real, p: QueryParams, docs: seq<Doc>, ids: seq<nat>,
                                raw: seq<Bytes>, k: nat, list: seq<ScoredDoc>)
    requires p.n.avgdl > 0.0 && |docs| <= MAX_DOCS
  {
    Ascends(ids, |docs|) && IsTopK(list, ShardMatching(m, rf, p, docs, ids, raw), k)
  }

  lemma ShardIsAnswered(m: Arithmetic, rf: real -> real, p: QueryParams, docs: seq<Doc>, ids: seq<nat>, raw: seq<Bytes>,
                        k: nat, list: seq<ScoredDoc>)
    requires p.n.avgdl > 0.0 && |docs| <= MAX_DOCS
    requires Ascends(ids, |docs|) && IsTopK(list, ShardMatching(m, rf, p, docs, ids, raw), k)
    ensures ShardAnswered(m, rf, p, docs, ids, raw, k, list)
  {
  }

  lemma ShardAt(shards: seq<seq<nat>>, n: nat, i: nat)
    requires Sharded(shards, n) && i < |shards|
    ensures Ascends(shards[i], n)
  {
  }

  /** The merge of the shards' top-k lists is the top-k of the whole. */
  lemma ShardsTogether(m: Arithmetic, rf: real -> real, p: QueryParams, docs: seq<Doc>, shards: seq<seq<nat>>,
                       raw: seq<Bytes>, k: nat, lists: seq<seq<ScoredDoc>>, hits: seq<ScoredDoc>)
    requires p.n.avgdl > 0.0 && |docs| <= MAX_DOCS && Sharded(shards, |docs|) && |lists| == |shards|
    requires forall j :: 0 <= j < |lists| ==> ShardAnswered(m, rf, p, docs, shards[j], raw, k, lists[j])
    requires IsTopK(hits, BestOf(Entries(lists)), k)
    ensures IsTopK(hits, Matching(m, rf, p, docs, docs, raw), k)
  {
    hide IsTopK, BestOf, ShardMatching, Matches, DocScore, Ascends;
    var whole := Matching(m, rf, p, docs, docs, raw);
    var parts: seq<set<ScoredDoc>> := seq(|shards|,
      j requires 0 <= j < |shards| => assert ShardAnswered(m, rf, p, docs, shards[j], raw, k, lists[j]);
              ShardMatching(m, rf, p, docs, shards[j], raw));
    forall j | 0 <= j < |shards|
      ensures IsTopK(lists[j], parts[j], k) && parts[j] <= whole
      ensures forall x :: x in whole && x.doc in shards[j] ==> x in parts[j]
    {
      assert ShardAnswered(m, rf, p, docs, shards[j], raw, k, lists[j]);
      ShardMatchingIs(m, rf, p, docs, shards[j], raw);
    }
    forall x | x in whole ensures exists j :: 0 <= j < |parts| && x in parts[j] {
      assert InShard(shards, x.doc);
      var j :| 0 <= j < |shards| && x.doc in shards[j];
      assert x in parts[j];
    }
    MergedIsTopK(lists, parts, whole, k, hits);
  }

  /** The sharded search and the search of one index of the whole give the same list, bit for bit. */
  method ShardedEqualsSingle(m: Arithmetic, col: Collection, p: QueryParams, docs: seq<Doc>, shards: seq<seq<nat>>,
                             plan: nat -> Plan, single: Plan, wholeCodec: CodecKind, wholeHash: Bytes -> nat,
                             wholeCap: nat, raw: seq<Bytes>, k: nat)
    returns (sharded: seq<ScoredDoc>, whole: seq<ScoredDoc>)
    requires Ieee(m) && ValidParams(col, p) && ValidDocs(docs) && LengthsOf(col, docs) && SafeFor(col, p, docs, raw)
    requires |Engine.DistinctTerms(raw)| <= MAX_TERMS
    requires Sharded(shards, |docs|)
    ensures sharded == whole
  {
    hide *;
    CollectionOk(col, p);
    DocsFit(docs);
    sharded := SearchShards(m, col, p, docs, shards, plan, wholeCodec, wholeHash, wholeCap, raw, k);
    whole := BuildAndSearch(single.alg, m, col, p, docs, single.codec, single.hash, single.cap, raw, k);
    TopKUnique(sharded, whole, Matching(m, col.rf, p, docs, docs, raw), k);
  }
}
