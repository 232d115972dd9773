/**
  The autocomplete pipeline: query projections, capped prefix retrieval
  over three fields, order-preserving dedup merge, Fuse.js re-ranking with
  prefix bonuses, backfill by best match source, final sort and truncation.
  Scores are fixed-point integers in units of 1e-4 (the `toFixed(4)`
  resolution), so 0.6 is 6000.
*/
module SearchService {
  import opened Wrappers
  import opened Text
  import opened KorNorm
  import opened SearchKeyStore
  import opened Sorting

  // ---------------------------------------------------------------------------
  // Constants

  /** Which query projection a candidate matches best; `OtherSource` also stands for "no source". */
  datatype Source = NormSource | JamoSource | InitialsSource | DisplaySource | OtherSource

  /** `sourceRank`: lower is stronger. */
  function Rank(s: Source): int {
    match s
    case NormSource => 0
    case JamoSource => 1
    case InitialsSource => 2
    case DisplaySource => 3
    case OtherSource => 9
  }

  /** `baseScoreMap`: 0.10, 0.20, 0.30, 0.40, 0.90. */
  function BaseScore(s: Source): int {
    match s
    case NormSource => 1000
    case JamoSource => 2000
    case InitialsSource => 3000
    case DisplaySource => 4000
    case OtherSource => 9000
  }

  /** The backfill tie-breaker: 0.0001, 0.0002, 0.0003, otherwise 0.0009. */
  function Epsilon(s: Source): int {
    match s
    case NormSource => 1
    case JamoSource => 2
    case InitialsSource => 3
    case _ => 9
  }

  /** Score assumed for a Fuse result without one (`r.score ?? 0.6`). */
  const MissingFuseScore := 6000
  const NormBonus := 1200
  const JamoBonus := 800
  const InitialsBonus := 400
  const DisplayBonus := 500
  /** Fuse.js scores run from 0 (exact) to 1 (worst). */
  const WorstFuseScore := 10000

  /** `Math.max(50, limit * 10)`: how many records each prefix query may return. */
  function Cap(limit: nat): nat {
    if limit * 10 > 50 then limit * 10 else 50
  }

  /** `(key.length || 999)`: an empty key sorts as if 999 long. */
  function KeyLen(k: string): int {
    if |k| == 0 then 999 else |k|
  }

  // ---------------------------------------------------------------------------
  // Query projections and gating

  /** `qn`, `qj`, and `qi` (null unless the raw query holds Hangul). */
  datatype Projections = Projections(qn: string, qj: string, qi: Option<string>)

  function Project(lib: Lib, query: string): Projections {
    Projections(
      Norm(lib, query),
      ToJamoFull(lib, query),
      if IsKoreanQuery(query) then Some(ToInitials(lib, query)) else None)
  }

  /** `qj && qj.length >= 2`. */
  predicate UsesJamo(p: Projections) {
    |p.qj| >= 2
  }

  /** `qi && qi.length >= 2`. */
  predicate UsesInitials(p: Projections) {
    p.qi.Some? && |p.qi.value| >= 2
  }

  /** Whether the service queries field `f` at all: norm always, the others only for long enough projections. */
  predicate Enabled(f: Field, p: Projections) {
    match f
    case NormField => true
    case JamoField => UsesJamo(p)
    case InitialsField => UsesInitials(p)
  }

  /** The projection matched against field `f`. */
  function ProjectionFor(f: Field, p: Projections): string {
    match f
    case NormField => p.qn
    case JamoField => p.qj
    case InitialsField => p.qi.GetOr([])
  }

  predicate MatchesOn(k: SearchKey, p: Projections, f: Field) {
    Enabled(f, p) && ProjectionFor(f, p) <= FieldOf(k, f)
  }

  /** A record the prefix retrieval can return: some enabled field starts with its projection. */
  predicate Matches(k: SearchKey, p: Projections) {
    MatchesOn(k, p, NormField) || MatchesOn(k, p, JamoField) || MatchesOn(k, p, InitialsField)
  }

  /** One `SearchKey.find({ field: /^pattern/ }).limit(cap)` call. */
  datatype StoreQuery = StoreQuery(field: Field, pattern: string, cap: nat)

  /** A query for an enabled field whose pattern is exactly that field's projection, escaped. */
  predicate Sound(q: StoreQuery, p: Projections, limit: nat) {
    && q.cap == Cap(limit)
    && Enabled(q.field, p)
    && RegexLiteral(q.pattern) == Some(ProjectionFor(q.field, p))
  }

  /** The fields in the service's priority order. */
  const FieldPriority := [NormField, JamoField, InitialsField]

  /** The enabled ones among `fs`, in order. */
  function EnabledOf(fs: seq<Field>, p: Projections): seq<Field> {
    if fs == [] then []
    else (if Enabled(fs[0], p) then [fs[0]] else []) + EnabledOf(fs[1..], p)
  }

  function FieldsOf(qs: seq<StoreQuery>): (fs: seq<Field>)
    ensures |fs| == |qs| && forall i :: 0 <= i < |qs| ==> fs[i] == qs[i].field
  {
    if qs == [] then [] else [qs[0].field] + FieldsOf(qs[1..])
  }

  /**
    The prefix queries issued, in priority order: normalised, jamo, initials.
    Each matches its projection literally, and the fields queried are
    exactly the enabled ones, each once, in priority order.
  */
  function PrefixQueries(p: Projections, limit: nat): (qs: seq<StoreQuery>)
    ensures forall i :: 0 <= i < |qs| ==> Sound(qs[i], p, limit)
    ensures forall f :: Enabled(f, p) ==> exists i :: 0 <= i < |qs| && qs[i].field == f
    ensures |qs| <= 3 && qs != [] && qs[0].field == NormField
    ensures FieldsOf(qs) == EnabledOf(FieldPriority, p)
  {
    QueryList(p, limit);
    QueryFields(p, limit);
    [QueryFor(NormField, p, limit)]
    + (if UsesJamo(p) then [QueryFor(JamoField, p, limit)] else [])
    + (if UsesInitials(p) then [QueryFor(InitialsField, p, limit)] else [])
  }

  /** The queries built for the enabled fields are sound, cover every enabled field, and start with the normalised one. */
  lemma QueryList(p: Projections, limit: nat)
    ensures var qs := [QueryFor(NormField, p, limit)]
                      + (if UsesJamo(p) then [QueryFor(JamoField, p, limit)] else [])
                      + (if UsesInitials(p) then [QueryFor(InitialsField, p, limit)] else []);
            && (forall i :: 0 <= i < |qs| ==> Sound(qs[i], p, limit))
            && (forall f :: Enabled(f, p) ==> exists i :: 0 <= i < |qs| && qs[i].field == f)
            && |qs| <= 3 && qs != [] && qs[0].field == NormField
  {
    var norm := [QueryFor(NormField, p, limit)];
    var jamo := if UsesJamo(p) then [QueryFor(JamoField, p, limit)] else [];
    var initials := if UsesInitials(p) then [QueryFor(InitialsField, p, limit)] else [];
    var qs := norm + jamo + initials;
    assert forall i :: 0 <= i < |qs| ==> qs[i] in norm || qs[i] in jamo || qs[i] in initials;
    assert qs[0] == norm[0];
    assert UsesJamo(p) ==> qs[1] == jamo[0];
    assert UsesInitials(p) ==> qs[|qs| - 1] == initials[0];
  }

  /** The queries built for the enabled fields carry those fields in priority order. */
  lemma QueryFields(p: Projections, limit: nat)
    ensures FieldsOf([QueryFor(NormField, p, limit)]
                     + (if UsesJamo(p) then [QueryFor(JamoField, p, limit)] else [])
                     + (if UsesInitials(p) then [QueryFor(InitialsField, p, limit)] else []))
         == EnabledOf(FieldPriority, p)
  {
    var jamo := if UsesJamo(p) then [JamoField] else [];
    var initials := if UsesInitials(p) then [InitialsField] else [];
    assert EnabledOf(FieldPriority, p) == [NormField] + EnabledOf([JamoField, InitialsField], p) by {
      assert FieldPriority[1..] == [JamoField, InitialsField];
    }
    assert EnabledOf([JamoField, InitialsField], p) == jamo + EnabledOf([InitialsField], p) by {
      assert [JamoField, InitialsField][1..] == [InitialsField];
    }
    assert EnabledOf([InitialsField], p) == initials;
  }

  /** The query for an enabled field: its projection escaped, with the cap. */
  function QueryFor(f: Field, p: Projections, limit: nat): (q: StoreQuery)
    requires Enabled(f, p)
    ensures q.field == f && Sound(q, p, limit)
  {
    EscapeIsLiteral(ProjectionFor(f, p));
    StoreQuery(f, EscapeRegex(ProjectionFor(f, p)), Cap(limit))
  }

  /** The documents each query returned, in the same order as the queries. */
  function Retrieve(store: seq<SearchKey>, qs: seq<StoreQuery>): (docs: seq<seq<SearchKey>>)
    requires forall i :: 0 <= i < |qs| ==> RegexLiteral(qs[i].pattern).Some?
    ensures |docs| == |qs|
    ensures forall i :: 0 <= i < |qs| ==> docs[i] == FindByPrefix(store, qs[i].field, qs[i].pattern, qs[i].cap)
  {
    if qs == [] then []
    else [FindByPrefix(store, qs[0].field, qs[0].pattern, qs[0].cap)] + Retrieve(store, qs[1..])
  }

  // ---------------------------------------------------------------------------
  // Merge

  /** `${d.key_type || 'unknown'}::${d.key_display}`: the dedup identity of a document. */
  function CompKey(d: SearchKey): string {
    (if d.keyType == [] then "unknown" else d.keyType) + "::" + d.display
  }

  function CompKeys(s: seq<SearchKey>): set<string> {
    set d | d in s :: CompKey(d)
  }

  /** `pushUnique`: appends each document whose identity is not yet in `seen`. */
  function PushUnique(arr: seq<SearchKey>, merged: seq<SearchKey>, seen: set<string>): (seq<SearchKey>, set<string>)
  {
    if arr == [] then (merged, seen)
    else if CompKey(arr[0]) in seen then PushUnique(arr[1..], merged, seen)
    else PushUnique(arr[1..], merged + [arr[0]], seen + {CompKey(arr[0])})
  }

  /** The three result lists pushed in order into one merged list with a shared seen-set. */
  function MergeAll(docs: seq<seq<SearchKey>>, merged: seq<SearchKey>, seen: set<string>): seq<SearchKey>
  {
    if docs == [] then merged
    else
      var next := PushUnique(docs[0], merged, seen);
      MergeAll(docs[1..], next.0, next.1)
  }

  /**
    Reference definition of the merge: keep an element exactly when no
    earlier element has the same identity.
  */
  function DedupFirst(s: seq<SearchKey>): (r: seq<SearchKey>)
    ensures |r| <= |s|
  {
    if s == [] then []
    else
      var front := s[..|s| - 1];
      var last := s[|s| - 1];
      if CompKey(last) in CompKeys(front) then DedupFirst(front) else DedupFirst(front) + [last]
  }

  lemma CompKeysSnoc(prev: seq<SearchKey>, x: SearchKey)
    ensures CompKeys(prev + [x]) == CompKeys(prev) + {CompKey(x)}
  {
    assert forall d :: d in prev + [x] <==> d in prev || d == x;
  }

  /** The reference merge keeps one record per identity, every identity, and only records of the input. */
  lemma {:induction false} DedupFirstSpec(s: seq<SearchKey>)
    ensures DistinctBy(DedupFirst(s), CompKey)
    ensures CompKeys(DedupFirst(s)) == CompKeys(s)
    ensures forall x :: x in DedupFirst(s) ==> x in s
    decreases |s|
  {
    if s != [] {
      var front := s[..|s| - 1];
      var last := s[|s| - 1];
      var d := DedupFirst(front);
      DedupFirstSpec(front);
      assert s == front + [last];
      CompKeysSnoc(front, last);
      if CompKey(last) !in CompKeys(front) {
        assert forall i :: 0 <= i < |d| ==> d[i] in d;
        CompKeysSnoc(d, last);
      }
    }
  }

  /** A record whose identity was already seen adds nothing to the reference merge. */
  lemma DedupFirstSnocSeen(prev: seq<SearchKey>, x: SearchKey)
    requires CompKey(x) in CompKeys(prev)
    ensures DedupFirst(prev + [x]) == DedupFirst(prev)
  {
    assert (prev + [x])[..|prev|] == prev;
  }

  /** A record with a new identity is appended to the reference merge. */
  lemma DedupFirstSnocNew(prev: seq<SearchKey>, x: SearchKey)
    requires CompKey(x) !in CompKeys(prev)
    ensures DedupFirst(prev + [x]) == DedupFirst(prev) + [x]
  {
    assert (prev + [x])[..|prev|] == prev;
  }

  /** `pushUnique` with the seen-set of what came before continues the reference merge. */
  lemma {:induction false} PushUniqueIsDedupFirst(prev: seq<SearchKey>, arr: seq<SearchKey>)
    ensures PushUnique(arr, DedupFirst(prev), CompKeys(prev)) == (DedupFirst(prev + arr), CompKeys(prev + arr))
    decreases |arr|
  {
    if arr == [] {
      assert prev + arr == prev;
    } else {
      var x := arr[0];
      var next := prev + [x];
      assert PushUnique(arr, DedupFirst(prev), CompKeys(prev)) == PushUnique(arr[1..], DedupFirst(next), CompKeys(next)) by {
        CompKeysSnoc(prev, x);
        if CompKey(x) in CompKeys(prev) {
          DedupFirstSnocSeen(prev, x);
          assert CompKeys(next) == CompKeys(prev);
        } else {
          DedupFirstSnocNew(prev, x);
        }
      }
      PushUniqueIsDedupFirst(next, arr[1..]);
      assert next + arr[1..] == prev + arr;
    }
  }

  function Concat(docs: seq<seq<SearchKey>>): seq<SearchKey> {
    if docs == [] then [] else docs[0] + Concat(docs[1..])
  }

  /**
    The merge is the reference dedup of the concatenated results: the
    normalised results first, then jamo, then initials; the first copy of
    each (key type, display) identity survives and relative order is kept.
  */
  lemma {:induction false} MergeIsDedupFirst(prev: seq<SearchKey>, docs: seq<seq<SearchKey>>)
    ensures MergeAll(docs, DedupFirst(prev), CompKeys(prev)) == DedupFirst(prev + Concat(docs))
    decreases |docs|
  {
    if docs == [] {
      assert prev + Concat(docs) == prev;
    } else {
      var a := prev + docs[0];
      calc {
        MergeAll(docs, DedupFirst(prev), CompKeys(prev));
        { PushUniqueIsDedupFirst(prev, docs[0]); }
        MergeAll(docs[1..], DedupFirst(a), CompKeys(a));
        { MergeIsDedupFirst(a, docs[1..]); }
        DedupFirst(a + Concat(docs[1..]));
        { assert a + Concat(docs[1..]) == prev + Concat(docs); }
        DedupFirst(prev + Concat(docs));
      }
    }
  }

  lemma {:induction false} ConcatMembers(docs: seq<seq<SearchKey>>)
    ensures forall x :: x in Concat(docs) <==> exists i :: 0 <= i < |docs| && x in docs[i]
    decreases |docs|
  {
    if docs != [] {
      ConcatMembers(docs[1..]);
      forall x ensures x in Concat(docs) <==> exists i :: 0 <= i < |docs| && x in docs[i] {
        if x in docs[0] {
        } else if exists i :: 0 <= i < |docs| && x in docs[i] {
          var i :| 0 <= i < |docs| && x in docs[i];
          assert x in docs[1..][i - 1];
        }
      }
    }
  }

  /** The `candidates` list: what the three prefix queries returned, merged and deduplicated. */
  function Candidates(store: seq<SearchKey>, p: Projections, limit: nat): (cands: seq<SearchKey>)
    ensures DistinctBy(cands, CompKey)
    ensures forall c :: c in cands ==> c in store && Matches(c, p)
    ensures |store| < Cap(limit) ==> forall k :: k in store && Matches(k, p) ==> CompKey(k) in CompKeys(cands)
  {
    var docs := Retrieve(store, PrefixQueries(p, limit));
    MergeFromEmpty(docs);
    DedupFirstSpec(Concat(docs));
    RetrievedSound(store, p, limit);
    RetrievedComplete(store, p, limit);
    MergeAll(docs, [], {})
  }

  lemma MergeFromEmpty(docs: seq<seq<SearchKey>>)
    ensures MergeAll(docs, [], {}) == DedupFirst(Concat(docs))
  {
    MergeIsDedupFirst([], docs);
    assert DedupFirst([]) == [];
    assert CompKeys([]) == {};
    assert [] + Concat(docs) == Concat(docs);
  }

  /** Every retrieved record is in the store and matches an enabled projection. */
  lemma RetrievedSound(store: seq<SearchKey>, p: Projections, limit: nat)
    ensures forall c :: c in Concat(Retrieve(store, PrefixQueries(p, limit))) ==> c in store && Matches(c, p)
  {
    var qs := PrefixQueries(p, limit);
    var docs := Retrieve(store, qs);
    ConcatMembers(docs);
    forall c | c in Concat(docs) ensures c in store && Matches(c, p) {
      var i :| 0 <= i < |docs| && c in docs[i];
      assert MatchesOn(c, p, qs[i].field);
    }
  }

  /** A store smaller than the cap is retrieved completely. */
  lemma RetrievedComplete(store: seq<SearchKey>, p: Projections, limit: nat)
    ensures |store| < Cap(limit) ==>
              forall k :: k in store && Matches(k, p) ==> CompKey(k) in CompKeys(Concat(Retrieve(store, PrefixQueries(p, limit))))
  {
    var qs := PrefixQueries(p, limit);
    var docs := Retrieve(store, qs);
    ConcatMembers(docs);
    forall k | |store| < Cap(limit) && k in store && Matches(k, p) ensures CompKey(k) in CompKeys(Concat(docs)) {
      var f := if MatchesOn(k, p, NormField) then NormField
               else if MatchesOn(k, p, JamoField) then JamoField else InitialsField;
      var i :| 0 <= i < |qs| && qs[i].field == f;
      RetrievedHas(store, p, limit, k, i);
      assert k in Concat(docs);
    }
  }

  /** The query for a field the record matches on returns it, when the store is smaller than the cap. */
  lemma RetrievedHas(store: seq<SearchKey>, p: Projections, limit: nat, k: SearchKey, i: nat)
    requires |store| < Cap(limit) && k in store
    requires i < |PrefixQueries(p, limit)| && MatchesOn(k, p, PrefixQueries(p, limit)[i].field)
    ensures k in Retrieve(store, PrefixQueries(p, limit))[i]
  {
    var q := PrefixQueries(p, limit)[i];
    var r := FirstMatches(store, q.field, RegexLiteral(q.pattern).value, q.cap);
    assert |r| <= |store|;
  }

  // ---------------------------------------------------------------------------
  // Fuse re-ranking (Fuse.js is an oracle)

  /** The record fields Fuse.js can be asked to match. */
  datatype FuseKey = FuseNorm | FuseJamo | FuseInitials | FuseDisplay

  /** `fuse.search({ key: pattern })` or `fuse.search(pattern)`. */
  datatype FuseQuery = Keyed(key: FuseKey, pattern: string) | Free(pattern: string)

  /** One Fuse.js result: the matched candidate and its score, if any. */
  datatype Hit = Hit(item: SearchKey, score: Option<int>)

  /** Fuse.js over a candidate list: `(query, candidates, limit) -> results`. */
  type FuseOracle = (FuseQuery, seq<SearchKey>, nat) -> seq<Hit>

  predicate ScoreInRange(score: Option<int>) {
    score.Some? ==> 0 <= score.value <= WorstFuseScore
  }

  /** What Fuse.js guarantees: it returns candidates it was given, scored in [0, 1]. */
  ghost predicate FuseSound(fuse: FuseOracle) {
    forall q, cands, lim, i | 0 <= i < |fuse(q, cands, lim)| ::
      fuse(q, cands, lim)[i].item in cands && ScoreInRange(fuse(q, cands, lim)[i].score)
  }

  function Displays(hs: seq<Hit>): set<string> {
    set h | h in hs :: h.item.display
  }

  function HitDisplay(h: Hit): string {
    h.item.display
  }

  /**
    `pushFuseUnique`: appends results whose display is not yet collected,
    stopping right after the collection reaches `need`.
  */
  function PushFuseUnique(results: seq<Hit>, acc: seq<Hit>, need: nat): (r: seq<Hit>)
    ensures acc <= r
    ensures DistinctBy(acc, HitDisplay) ==> DistinctBy(r, HitDisplay)
    ensures forall i :: |acc| <= i < |r| ==> r[i] in results
    ensures |acc| < need ==> |r| <= need
    ensures |acc| >= need ==> |r| <= |acc| + 1
  {
    if results == [] then acc
    else if results[0].item.display in Displays(acc) then PushFuseUnique(results[1..], acc, need)
    else
      var acc' := acc + [results[0]];
      assert Displays(acc') == Displays(acc) + {results[0].item.display};
      if |acc'| >= need then acc'
      else
        var r := PushFuseUnique(results[1..], acc', need);
        assert forall i :: |acc'| <= i < |r| ==> r[i] in results;
        r
  }

  /** How many hits the passes can collect: `limit`, or one when `limit` is 0. */
  function HitBound(limit: nat): nat {
    if limit == 0 then 1 else limit
  }

  /** Every collected hit is a result of some Fuse search over the candidates. */
  ghost predicate FromFuse(hits: seq<Hit>, fuse: FuseOracle, cands: seq<SearchKey>, limit: nat) {
    forall i :: 0 <= i < |hits| ==> exists q :: hits[i] in fuse(q, cands, limit)
  }

  /** One Fuse pass: run `q` and push its unique results when `run` holds, else keep `acc`. */
  function Stage(fuse: FuseOracle, q: FuseQuery, cands: seq<SearchKey>, limit: nat, acc: seq<Hit>, run: bool): (r: seq<Hit>)
    requires DistinctBy(acc, HitDisplay) && |acc| <= HitBound(limit)
    requires run ==> |acc| < limit || acc == []
    ensures DistinctBy(r, HitDisplay) && |r| <= HitBound(limit)
    ensures FromFuse(acc, fuse, cands, limit) ==> FromFuse(r, fuse, cands, limit)
  {
    if run then
      var r := PushFuseUnique(fuse(q, cands, limit), acc, limit);
      assert forall i :: |acc| <= i < |r| ==> r[i] in fuse(q, cands, limit);
      r
    else acc
  }

  /**
    The five Fuse passes, each run only while fewer than `limit` results are
    collected: anchored normalised, anchored jamo (if `qj` is long enough),
    anchored initials (if `qi` is), anchored display, and a free query.
  */
  function FuseStages(fuse: FuseOracle, cands: seq<SearchKey>, p: Projections, query: string, limit: nat): (r: seq<Hit>)
    ensures DistinctBy(r, HitDisplay)
    ensures |r| <= HitBound(limit)
    ensures FromFuse(r, fuse, cands, limit)
  {
    var s1 := Stage(fuse, Keyed(FuseNorm, "^" + p.qn), cands, limit, [], p.qn != []);
    var s2 := Stage(fuse, Keyed(FuseJamo, "^" + p.qj), cands, limit, s1, |s1| < limit && UsesJamo(p));
    var s3 := Stage(fuse, Keyed(FuseInitials, "^" + (if p.qi.Some? then p.qi.value else [])), cands, limit, s2,
                    |s2| < limit && UsesInitials(p));
    var s4 := Stage(fuse, Keyed(FuseDisplay, "^" + query), cands, limit, s3, |s3| < limit);
    Stage(fuse, Free(query), cands, limit, s4, |s4| < limit)
  }

  /** A Fuse result scored and projected: `{ key, movieIds, _score }`, with no source. */
  datatype Scored = Scored(key: string, movieIds: seq<MovieId>, score: int, source: Source)

  /** `safeNorm`: the stored key_norm, or the display normalised on the fly. */
  function SafeNorm(lib: Lib, item: SearchKey): string {
    if item.norm != [] then item.norm else Norm(lib, item.display)
  }

  /** `safeJamo`: the stored key_jamo_full, or the display's jamo form on the fly. */
  function SafeJamo(lib: Lib, item: SearchKey): string {
    if item.jamoFull != [] then item.jamoFull else ToJamoFull(lib, item.display)
  }

  predicate NormPrefix(lib: Lib, item: SearchKey, p: Projections) {
    p.qn <= SafeNorm(lib, item)
  }

  predicate JamoPrefix(lib: Lib, item: SearchKey, p: Projections) {
    p.qj != [] && p.qj <= SafeJamo(lib, item)
  }

  predicate InitialsPrefix(item: SearchKey, p: Projections) {
    p.qi.Some? && p.qi.value != [] && p.qi.value <= item.initials
  }

  predicate DisplayPrefix(item: SearchKey, query: string) {
    query <= item.display
  }

  /**
    `scoreFromFuse`: the Fuse score (0.6 if missing) less a bonus for each
    prefix the candidate matches, floored at 0.
  */
  function ScoreFromFuse(lib: Lib, h: Hit, query: string, p: Projections): (r: Scored)
    ensures r.key == h.item.display && r.movieIds == h.item.movieIds && r.source == OtherSource
    ensures var start := h.score.GetOr(MissingFuseScore);
            && 0 <= r.score
            && (start >= 0 ==> r.score <= start)
            && r.score >= start - (NormBonus + JamoBonus + InitialsBonus + DisplayBonus)
            && (NormPrefix(lib, h.item, p) ==> r.score <= if start > NormBonus then start - NormBonus else 0)
            && (JamoPrefix(lib, h.item, p) ==> r.score <= if start > JamoBonus then start - JamoBonus else 0)
            && (InitialsPrefix(h.item, p) ==> r.score <= if start > InitialsBonus then start - InitialsBonus else 0)
            && (DisplayPrefix(h.item, query) ==> r.score <= if start > DisplayBonus then start - DisplayBonus else 0)
            && ((!NormPrefix(lib, h.item, p) && !JamoPrefix(lib, h.item, p) && !InitialsPrefix(h.item, p)
                 && !DisplayPrefix(h.item, query) && start >= 0) ==> r.score == start)
    ensures var rest := h.score.GetOr(MissingFuseScore) - BonusTotal(MatchedBonuses(lib, h.item, p, query));
            r.score == if rest < 0 then 0 else rest
  {
    MatchedBonusesTotal(lib, h.item, p, query);
    var start := h.score.GetOr(MissingFuseScore);
    var s := start
      - (if NormPrefix(lib, h.item, p) then NormBonus else 0)
      - (if JamoPrefix(lib, h.item, p) then JamoBonus else 0)
      - (if InitialsPrefix(h.item, p) then InitialsBonus else 0)
      - (if DisplayPrefix(h.item, query) then DisplayBonus else 0);
    Scored(h.item.display, h.item.movieIds, if s < 0 then 0 else s, OtherSource)
  }

  /** The bonus of every prefix the item matches, one entry per matched prefix. */
  function MatchedBonuses(lib: Lib, item: SearchKey, p: Projections, query: string): seq<int> {
    (if NormPrefix(lib, item, p) then [NormBonus] else [])
    + (if JamoPrefix(lib, item, p) then [JamoBonus] else [])
    + (if InitialsPrefix(item, p) then [InitialsBonus] else [])
    + (if DisplayPrefix(item, query) then [DisplayBonus] else [])
  }

  function BonusTotal(bs: seq<int>): int {
    if bs == [] then 0 else bs[0] + BonusTotal(bs[1..])
  }

  lemma BonusTotalAppend(a: seq<int>, b: seq<int>)
    ensures BonusTotal(a + b) == BonusTotal(a) + BonusTotal(b)
  {
    if a != [] {
      assert (a + b)[1..] == a[1..] + b;
      BonusTotalAppend(a[1..], b);
    } else {
      assert a + b == b;
    }
  }

  /** The matched bonuses add up prefix by prefix. */
  lemma MatchedBonusesTotal(lib: Lib, item: SearchKey, p: Projections, query: string)
    ensures BonusTotal(MatchedBonuses(lib, item, p, query))
         == (if NormPrefix(lib, item, p) then NormBonus else 0)
          + (if JamoPrefix(lib, item, p) then JamoBonus else 0)
          + (if InitialsPrefix(item, p) then InitialsBonus else 0)
          + (if DisplayPrefix(item, query) then DisplayBonus else 0)
  {
    var a := if NormPrefix(lib, item, p) then [NormBonus] else [];
    var b := if JamoPrefix(lib, item, p) then [JamoBonus] else [];
    var c := if InitialsPrefix(item, p) then [InitialsBonus] else [];
    var d := if DisplayPrefix(item, query) then [DisplayBonus] else [];
    BonusTotalAppend(a, b);
    BonusTotalAppend(a + b, c);
    BonusTotalAppend(a + b + c, d);
  }

  function ScoreAll(lib: Lib, hs: seq<Hit>, query: string, p: Projections): (r: seq<Scored>)
    ensures |r| == |hs|
    ensures forall i :: 0 <= i < |hs| ==> r[i] == ScoreFromFuse(lib, hs[i], query, p)
  {
    if hs == [] then [] else [ScoreFromFuse(lib, hs[0], query, p)] + ScoreAll(lib, hs[1..], query, p)
  }

  // ---------------------------------------------------------------------------
  // Backfill

  /** `chooseBestSource`: the strongest projection the candidate starts with. */
  function ChooseBestSource(lib: Lib, c: SearchKey, p: Projections, query: string): Source {
    if p.qn <= SafeNorm(lib, c) then NormSource
    else if p.qj <= SafeJamo(lib, c) then JamoSource
    else if UsesInitials(p) && p.qi.value <= c.initials then InitialsSource
    else if query <= c.display then DisplaySource
    else OtherSource
  }

  function KeyOf(x: Scored): string {
    x.key
  }

  function KeySet(s: seq<Scored>): set<string> {
    set x | x in s :: x.key
  }

  /** The backfill entry for a candidate: its best source's base score plus epsilon. */
  function Entry(lib: Lib, c: SearchKey, p: Projections, query: string): Scored {
    var src := ChooseBestSource(lib, c, p, query);
    Scored(c.display, c.movieIds, BaseScore(src) + Epsilon(src), src)
  }

  /** Candidates whose display is not in `seen`, in candidate order. */
  function Unseen(cands: seq<SearchKey>, seen: set<string>): (r: seq<SearchKey>)
    ensures forall c :: c in r <==> c in cands && c.display !in seen
  {
    if cands == [] then []
    else if cands[0].display in seen then Unseen(cands[1..], seen)
    else [cands[0]] + Unseen(cands[1..], seen)
  }

  function Entries(lib: Lib, cs: seq<SearchKey>, p: Projections, query: string): (r: seq<Scored>)
    ensures |r| == |cs|
    ensures forall i :: 0 <= i < |cs| ==> r[i] == Entry(lib, cs[i], p, query)
  {
    if cs == [] then [] else [Entry(lib, cs[0], p, query)] + Entries(lib, cs[1..], p, query)
  }

  /** The `pending` list: an entry for every candidate whose display is not yet scored. */
  function Pending(lib: Lib, cands: seq<SearchKey>, seen: set<string>, p: Projections, query: string): seq<Scored> {
    Entries(lib, Unseen(cands, seen), p, query)
  }

  /** Pending entries are exactly the entries of the unseen candidates. */
  lemma PendingMembers(lib: Lib, cands: seq<SearchKey>, seen: set<string>, p: Projections, query: string)
    ensures forall x :: x in Pending(lib, cands, seen, p, query) ==>
              x.key !in seen && exists c :: c in cands && x == Entry(lib, c, p, query)
    ensures forall c :: c in cands && c.display !in seen ==> Entry(lib, c, p, query) in Pending(lib, cands, seen, p, query)
  {
    var u := Unseen(cands, seen);
    var r := Pending(lib, cands, seen, p, query);
    forall x | x in r ensures x.key !in seen && exists c :: c in cands && x == Entry(lib, c, p, query) {
      var i :| 0 <= i < |r| && r[i] == x;
      assert u[i] in u;
    }
    forall c | c in cands && c.display !in seen ensures Entry(lib, c, p, query) in r {
      var i :| 0 <= i < |u| && u[i] == c;
      assert r[i] == Entry(lib, c, p, query);
    }
  }

  /** `(source rank, score, key length)`: the backfill order. */
  function PendingOrder(x: Scored): seq<int> {
    [Rank(x.source), x.score, KeyLen(x.key)]
  }

  /**
    The backfill loop: appends each pending item whose key is unseen,
    stopping right after `limit` items are collected.
  */
  function AppendUnseen(scored: seq<Scored>, seen: set<string>, pending: seq<Scored>, limit: nat): (r: seq<Scored>)
    requires seen == KeySet(scored)
    ensures scored <= r
    ensures forall i :: |scored| <= i < |r| ==> r[i] in pending && r[i].key !in seen
    ensures DistinctBy(scored, KeyOf) ==> DistinctBy(r, KeyOf)
    ensures |scored| < limit ==> |r| <= limit
    ensures |r| < limit ==> forall x :: x in pending ==> x.key in KeySet(r)
    decreases |pending|
  {
    if pending == [] then scored
    else if pending[0].key in seen then AppendUnseen(scored, seen, pending[1..], limit)
    else
      var s := scored + [pending[0]];
      assert KeySet(s) == KeySet(scored) + {pending[0].key};
      if |s| >= limit then s
      else
        var r := AppendUnseen(s, seen + {pending[0].key}, pending[1..], limit);
        assert forall i :: |s| <= i < |r| ==> r[i] in pending;
        assert scored[..] <= r && r[|scored|] == pending[0];
        r
  }

  /**
    Over a pending list sorted by `PendingOrder`, the appended items come out
    in that order and none of them orders after a pending item whose key was
    left out.
  */
  lemma {:induction false} AppendUnseenOrder(scored: seq<Scored>, seen: set<string>, pending: seq<Scored>, limit: nat)
    requires seen == KeySet(scored)
    requires SortedBy(pending, PendingOrder)
    ensures AppendedInOrder(scored, pending, AppendUnseen(scored, seen, pending, limit))
    decreases |pending|, 1
  {
    if pending == [] {
    } else if pending[0].key in seen {
      OrderSkip(scored, seen, pending, limit);
    } else if |scored| + 1 >= limit {
      OrderStop(scored, seen, pending, limit);
    } else {
      OrderAppend(scored, seen, pending, limit);
    }
  }

  /**
    The items of `r` after `scored` come out in `PendingOrder`, and none of
    them orders after a pending item whose key `r` left out.
  */
  ghost predicate AppendedInOrder(scored: seq<Scored>, pending: seq<Scored>, r: seq<Scored>)
    requires |scored| <= |r|
  {
    && SortedBy(r[|scored|..], PendingOrder)
    && forall x, i :: x in pending && x.key !in KeySet(r) && |scored| <= i < |r| ==>
         LexLe(PendingOrder(r[i]), PendingOrder(x))
  }

  lemma {:induction false} OrderSkip(scored: seq<Scored>, seen: set<string>, pending: seq<Scored>, limit: nat)
    requires seen == KeySet(scored)
    requires SortedBy(pending, PendingOrder)
    requires pending != [] && pending[0].key in seen
    ensures AppendedInOrder(scored, pending, AppendUnseen(scored, seen, pending, limit))
    decreases |pending|, 0
  {
    var r := AppendUnseen(scored, seen, pending[1..], limit);
    assert AppendUnseen(scored, seen, pending, limit) == r;
    AppendUnseenOrder(scored, seen, pending[1..], limit);
    KeySetPrefix(scored, r);
    forall x | x in pending && x.key !in KeySet(r) ensures x in pending[1..] {
      InSeqCons(pending, x);
    }
  }

  lemma OrderStop(scored: seq<Scored>, seen: set<string>, pending: seq<Scored>, limit: nat)
    requires seen == KeySet(scored)
    requires SortedBy(pending, PendingOrder)
    requires pending != [] && pending[0].key !in seen && |scored| + 1 >= limit
    ensures AppendedInOrder(scored, pending, AppendUnseen(scored, seen, pending, limit))
  {
    var p0 := pending[0];
    var r := scored + [p0];
    assert AppendUnseen(scored, seen, pending, limit) == r;
    assert r[|scored|..] == [p0];
    assert p0 in r;
    forall x, i | x in pending && x.key !in KeySet(r) && |scored| <= i < |r|
      ensures LexLe(PendingOrder(r[i]), PendingOrder(x))
    {
      var j :| 0 <= j < |pending| && pending[j] == x;
      assert j != 0;
    }
  }

  lemma {:induction false} OrderAppend(scored: seq<Scored>, seen: set<string>, pending: seq<Scored>, limit: nat)
    requires seen == KeySet(scored)
    requires SortedBy(pending, PendingOrder)
    requires pending != [] && pending[0].key !in seen && |scored| + 1 < limit
    ensures AppendedInOrder(scored, pending, AppendUnseen(scored, seen, pending, limit))
    decreases |pending|, 0
  {
    var p0 := pending[0];
    var s := scored + [p0];
    assert KeySet(s) == KeySet(scored) + {p0.key};
    var r := AppendUnseen(s, seen + {p0.key}, pending[1..], limit);
    assert AppendUnseen(scored, seen, pending, limit) == r;
    AppendUnseenOrder(s, seen + {p0.key}, pending[1..], limit);
    assert r[|scored|] == p0 by {
      assert s <= r;
    }
    AppendStep(scored, pending, r);
  }

  /**
    One step of the backfill loop keeps the appended items in order: the
    first pending item, appended, orders no later than anything after it.
  */
  lemma AppendStep(scored: seq<Scored>, pending: seq<Scored>, r: seq<Scored>)
    requires SortedBy(pending, PendingOrder) && pending != []
    requires |scored| < |r| && r[|scored|] == pending[0]
    requires forall i :: |scored| + 1 <= i < |r| ==> r[i] in pending[1..]
    requires AppendedInOrder(scored + [pending[0]], pending[1..], r)
    ensures AppendedInOrder(scored, pending, r)
  {
    var p0 := pending[0];
    var n := |scored| + 1;
    forall i | n <= i < |r| ensures LexLe(PendingOrder(p0), PendingOrder(r[i])) {
      FirstBelowRest(pending, r[i]);
    }
    assert r[|scored|..] == [p0] + r[n..];
    SortedCons(p0, r[n..], PendingOrder);
    assert p0 in r;
    forall x, i | x in pending && x.key !in KeySet(r) && |scored| <= i < |r|
      ensures LexLe(PendingOrder(r[i]), PendingOrder(x))
    {
      InSeqCons(pending, x);
      if i == |scored| {
        FirstBelowRest(pending, x);
      }
    }
  }

  /** In a sorted sequence the first element orders no later than any later one. */
  lemma FirstBelowRest(pending: seq<Scored>, x: Scored)
    requires SortedBy(pending, PendingOrder) && pending != [] && x in pending[1..]
    ensures LexLe(PendingOrder(pending[0]), PendingOrder(x))
  {
    var j :| 0 <= j < |pending[1..]| && pending[1..][j] == x;
    assert pending[j + 1] == x;
  }

  /** Putting an element no larger than any other in front keeps a sequence sorted. */
  lemma SortedCons<T>(x: T, s: seq<T>, key: T -> seq<int>)
    requires SortedBy(s, key)
    requires forall i :: 0 <= i < |s| ==> LexLe(key(x), key(s[i]))
    ensures SortedBy([x] + s, key)
  {
    var r := [x] + s;
    forall i, j | 0 <= i < j < |r| ensures LexLe(key(r[i]), key(r[j])) {
      assert r[j] == s[j - 1];
      if i > 0 {
        assert r[i] == s[i - 1];
      }
    }
  }

  lemma InSeqCons<T>(s: seq<T>, x: T)
    requires s != [] && x in s && x != s[0]
    ensures x in s[1..]
  {
    var j :| 0 <= j < |s| && s[j] == x;
    assert s[1..][j - 1] == x;
  }

  /** Step 4 of the service: top up with candidates by best source when Fuse returned fewer than `limit`. */
  function Backfill(lib: Lib, scored: seq<Scored>, cands: seq<SearchKey>, p: Projections, query: string, limit: nat): (r: seq<Scored>)
    ensures scored <= r
    ensures |scored| >= limit ==> r == scored
    ensures forall i :: |scored| <= i < |r| ==> r[i].key !in KeySet(scored)
    ensures forall i :: |scored| <= i < |r| ==> exists c :: c in cands && r[i] == Entry(lib, c, p, query)
    ensures DistinctBy(scored, KeyOf) ==> DistinctBy(r, KeyOf)
    ensures |scored| < limit ==> |r| <= limit
    ensures |scored| < limit && |r| < limit ==> forall c :: c in cands ==> c.display in KeySet(r)
    ensures SortedBy(r[|scored|..], PendingOrder)
    ensures forall c, i :: c in cands && c.display !in KeySet(r) && |scored| <= i < |r| ==>
              LexLe(PendingOrder(r[i]), PendingOrder(Entry(lib, c, p, query)))
  {
    if |scored| < limit then
      var seen := KeySet(scored);
      var sorted := SortBy(Pending(lib, cands, seen, p, query), PendingOrder);
      SortedPendingMembers(lib, cands, seen, p, query);
      var r := AppendUnseen(scored, seen, sorted, limit);
      KeySetPrefix(scored, r);
      AppendUnseenOrder(scored, seen, sorted, limit);
      r
    else scored
  }

  /** The sorted pending list holds exactly the entries of the candidates not yet seen. */
  lemma SortedPendingMembers(lib: Lib, cands: seq<SearchKey>, seen: set<string>, p: Projections, query: string)
    ensures forall x :: x in SortBy(Pending(lib, cands, seen, p, query), PendingOrder) ==>
              x.key !in seen && exists c :: c in cands && x == Entry(lib, c, p, query)
    ensures forall c :: c in cands && c.display !in seen ==>
              Entry(lib, c, p, query) in SortBy(Pending(lib, cands, seen, p, query), PendingOrder)
  {
    SortMembers(Pending(lib, cands, seen, p, query), PendingOrder);
    PendingMembers(lib, cands, seen, p, query);
  }

  lemma KeySetPrefix(a: seq<Scored>, b: seq<Scored>)
    requires a <= b
    ensures KeySet(a) <= KeySet(b)
  {
    assert forall x :: x in a ==> x in b;
  }

  // ---------------------------------------------------------------------------
  // Final ordering

  /** `(score, source rank, key length)`: the final order; lower is better. */
  function FinalOrder(x: Scored): seq<int> {
    [x.score, Rank(x.source), KeyLen(x.key)]
  }

  /** Splitting a sorted sequence: everything before the cut is no worse than everything after it. */
  lemma SortedCut(sorted: seq<Scored>, n: nat)
    requires SortedBy(sorted, FinalOrder) && n <= |sorted|
    ensures SortedBy(sorted[..n], FinalOrder)
    ensures DistinctBy(sorted, KeyOf) ==> DistinctBy(sorted[..n], KeyOf)
    ensures multiset(sorted[..n]) <= multiset(sorted)
    ensures multiset(sorted) - multiset(sorted[..n]) == multiset(sorted[n..])
    ensures forall i, y :: 0 <= i < n && y in multiset(sorted[n..]) ==> LexLe(FinalOrder(sorted[i]), FinalOrder(y))
  {
    assert sorted == sorted[..n] + sorted[n..];
    forall i, y | 0 <= i < n && y in multiset(sorted[n..]) ensures LexLe(FinalOrder(sorted[i]), FinalOrder(y)) {
      var j :| 0 <= j < |sorted[n..]| && sorted[n..][j] == y;
      assert sorted[n + j] == y;
    }
  }

  /**
    The final sort and `slice(0, limit)`: the `limit` best items in final
    order, none of the dropped ones better than any kept one.
  */
  function RankAndTruncate(scored: seq<Scored>, limit: nat): (r: seq<Scored>)
    ensures |r| == if limit < |scored| then limit else |scored|
    ensures SortedBy(r, FinalOrder)
    ensures multiset(r) <= multiset(scored)
    ensures forall i, y :: 0 <= i < |r| && y in multiset(scored) - multiset(r) ==> LexLe(FinalOrder(r[i]), FinalOrder(y))
    ensures DistinctBy(scored, KeyOf) ==> DistinctBy(r, KeyOf)
  {
    var sorted := SortBy(scored, FinalOrder);
    SortDistinct(scored, FinalOrder, KeyOf);
    var n := if limit < |sorted| then limit else |sorted|;
    SortedCut(sorted, n);
    sorted[..n]
  }

  /** The final order puts scores in ascending order. */
  lemma FinalOrderScores(s: seq<Scored>)
    requires SortedBy(s, FinalOrder)
    ensures forall i, j :: 0 <= i < j < |s| ==> s[i].score <= s[j].score
  {
    forall i, j | 0 <= i < j < |s| ensures s[i].score <= s[j].score {
      LexLeHead(FinalOrder(s[i]), FinalOrder(s[j]));
    }
  }

  /** One autocomplete result: `{ key, movieIds, score }`. */
  datatype Suggestion = Suggestion(key: string, movieIds: seq<MovieId>, score: int)

  function ToSuggestions(s: seq<Scored>): (r: seq<Suggestion>)
    ensures |r| == |s|
    ensures forall i :: 0 <= i < |s| ==> r[i] == Suggestion(s[i].key, s[i].movieIds, s[i].score)
  {
    if s == [] then [] else [Suggestion(s[0].key, s[0].movieIds, s[0].score)] + ToSuggestions(s[1..])
  }

  // ---------------------------------------------------------------------------
  // The service

  /** What one call does: the store queries it issued and the results it returned. */
  datatype Outcome = Outcome(queries: seq<StoreQuery>, results: seq<Suggestion>)

  /** Scoring keeps each hit's display as its key, so distinct hits give distinct keys. */
  lemma ScoreAllDistinct(lib: Lib, hs: seq<Hit>, query: string, p: Projections)
    requires DistinctBy(hs, HitDisplay)
    ensures DistinctBy(ScoreAll(lib, hs, query, p), KeyOf)
  {
    var scored := ScoreAll(lib, hs, query, p);
    forall i, j | 0 <= i < j < |scored| ensures scored[i].key != scored[j].key {
      assert scored[i].key == HitDisplay(hs[i]) && scored[j].key == HitDisplay(hs[j]);
    }
  }

  /** Steps 1-3 of the ranking: the Fuse hits, scored; one item per display. */
  function FuseScored(lib: Lib, fuse: FuseOracle, cands: seq<SearchKey>, p: Projections, query: string, limit: nat): (r: seq<Scored>)
    ensures DistinctBy(r, KeyOf)
  {
    var hits := FuseStages(fuse, cands, p, query, limit);
    ScoreAllDistinct(lib, hits, query, p);
    ScoreAll(lib, hits, query, p)
  }

  /** Everything after retrieval: Fuse passes, scoring, backfill, final sort. */
  function RankCandidates(lib: Lib, fuse: FuseOracle, cands: seq<SearchKey>, p: Projections, query: string, limit: nat): (r: seq<Scored>)
    ensures |r| <= limit
    ensures SortedBy(r, FinalOrder)
    ensures DistinctBy(r, KeyOf)
    ensures forall i, j :: 0 <= i < j < |r| ==> r[i].score <= r[j].score
  {
    var filled := Backfill(lib, FuseScored(lib, fuse, cands, p, query, limit), cands, p, query, limit);
    var r := RankAndTruncate(filled, limit);
    FinalOrderScores(r);
    r
  }

  /** `autocompleteService(query, limit)`. */
  function Autocomplete(lib: Lib, fuse: FuseOracle, store: seq<SearchKey>, query: string, limit: nat): (out: Outcome)
    ensures |out.results| <= limit
    ensures forall i, j :: 0 <= i < j < |out.results| ==> out.results[i].key != out.results[j].key
    ensures forall i, j :: 0 <= i < j < |out.results| ==> out.results[i].score <= out.results[j].score
    ensures Norm(lib, query) == [] ==> out == Outcome([], [])
    ensures forall i :: 0 <= i < |out.queries| ==> Sound(out.queries[i], Project(lib, query), limit)
    ensures Norm(lib, query) != [] ==>
              forall f :: Enabled(f, Project(lib, query)) ==> exists i :: 0 <= i < |out.queries| && out.queries[i].field == f
  {
    var p := Project(lib, query);
    if p.qn == [] then Outcome([], [])
    else
      var qs := PrefixQueries(p, limit);
      var cands := Candidates(store, p, limit);
      if cands == [] then Outcome(qs, [])
      else
        Outcome(qs, ToSuggestions(RankCandidates(lib, fuse, cands, p, query, limit)))
  }

  // ---------------------------------------------------------------------------
  // Properties of the whole pipeline

  /** The distinct names among some records. */
  function DisplaySet(ks: seq<SearchKey>): set<string> {
    set k | k in ks :: k.display
  }

  function Min(a: int, b: int): int {
    if a < b then a else b
  }

  /** A scored item that carries the name and movie ids of one of the candidates. */
  ghost predicate FromCandidate(x: Scored, cands: seq<SearchKey>) {
    exists c :: c in cands && x.key == c.display && x.movieIds == c.movieIds
  }

  lemma KeySetCons(s: seq<Scored>)
    requires s != []
    ensures KeySet(s) == {s[0].key} + KeySet(s[1..])
  {
    assert forall x :: x in s <==> x == s[0] || x in s[1..];
  }

  lemma DistinctTail(s: seq<Scored>)
    requires s != [] && DistinctBy(s, KeyOf)
    ensures DistinctBy(s[1..], KeyOf)
    ensures s[0].key !in KeySet(s[1..])
  {
    forall i, j | 0 <= i < j < |s[1..]| ensures KeyOf(s[1..][i]) != KeyOf(s[1..][j]) {
      assert s[1..][i] == s[i + 1] && s[1..][j] == s[j + 1];
    }
    forall x | x in s[1..] ensures x.key != s[0].key {
      var j :| 0 <= j < |s[1..]| && s[1..][j] == x;
      assert s[j + 1] == x;
    }
  }

  /** Distinct keys: as many names as items. */
  lemma {:induction false} DistinctKeysCard(s: seq<Scored>)
    requires DistinctBy(s, KeyOf)
    ensures |KeySet(s)| == |s|
    decreases |s|
  {
    if s != [] {
      DistinctTail(s);
      DistinctKeysCard(s[1..]);
      KeySetCons(s);
    }
  }

  lemma SubsetCard<T>(a: set<T>, b: set<T>)
    requires a <= b
    ensures |a| <= |b|
    ensures |a| == |b| ==> a == b
  {
    assert b == a + (b - a);
  }

  /** Every collected Fuse hit is a candidate, since Fuse.js only returns what it was given. */
  lemma HitsAreCandidates(fuse: FuseOracle, cands: seq<SearchKey>, p: Projections, query: string, limit: nat)
    requires FuseSound(fuse)
    ensures forall h :: h in FuseStages(fuse, cands, p, query, limit) ==> h.item in cands
  {
    var r := FuseStages(fuse, cands, p, query, limit);
    forall h | h in r ensures h.item in cands {
      var i :| 0 <= i < |r| && r[i] == h;
      var q :| r[i] in fuse(q, cands, limit);
      var k :| 0 <= k < |fuse(q, cands, limit)| && fuse(q, cands, limit)[k] == h;
    }
  }

  /** Every scored Fuse hit carries the name and ids of a candidate. */
  lemma FuseScoredFromCandidates(lib: Lib, fuse: FuseOracle, cands: seq<SearchKey>, p: Projections, query: string, limit: nat)
    requires FuseSound(fuse)
    ensures forall x :: x in FuseScored(lib, fuse, cands, p, query, limit) ==> FromCandidate(x, cands)
  {
    var hits := FuseStages(fuse, cands, p, query, limit);
    var scored := FuseScored(lib, fuse, cands, p, query, limit);
    HitsAreCandidates(fuse, cands, p, query, limit);
    forall x | x in scored ensures FromCandidate(x, cands) {
      var i :| 0 <= i < |scored| && scored[i] == x;
      assert hits[i] in hits;
      assert x.key == hits[i].item.display && x.movieIds == hits[i].item.movieIds;
    }
  }

  /** The backfill only adds entries of candidates, so it keeps every item a candidate's. */
  lemma BackfillFromCandidates(lib: Lib, scored: seq<Scored>, cands: seq<SearchKey>, p: Projections, query: string, limit: nat)
    requires forall x :: x in scored ==> FromCandidate(x, cands)
    ensures forall x :: x in Backfill(lib, scored, cands, p, query, limit) ==> FromCandidate(x, cands)
  {
    var filled := Backfill(lib, scored, cands, p, query, limit);
    forall x | x in filled ensures FromCandidate(x, cands) {
      var i :| 0 <= i < |filled| && filled[i] == x;
      if i < |scored| {
        assert scored[i] in scored;
      } else {
        var c :| c in cands && filled[i] == Entry(lib, c, p, query);
        assert x.key == c.display && x.movieIds == c.movieIds;
      }
    }
  }

  /** So does every item after the backfill. */
  lemma FilledFromCandidates(lib: Lib, fuse: FuseOracle, cands: seq<SearchKey>, p: Projections, query: string, limit: nat)
    requires FuseSound(fuse)
    ensures forall x :: x in Backfill(lib, FuseScored(lib, fuse, cands, p, query, limit), cands, p, query, limit) ==> FromCandidate(x, cands)
  {
    FuseScoredFromCandidates(lib, fuse, cands, p, query, limit);
    BackfillFromCandidates(lib, FuseScored(lib, fuse, cands, p, query, limit), cands, p, query, limit);
  }

  /** After the backfill there are `limit` items, or one per candidate name when there are fewer names. */
  lemma FilledCount(lib: Lib, fuse: FuseOracle, cands: seq<SearchKey>, p: Projections, query: string, limit: nat)
    requires FuseSound(fuse)
    ensures var filled := Backfill(lib, FuseScored(lib, fuse, cands, p, query, limit), cands, p, query, limit);
            Min(limit, |filled|) == Min(limit, |DisplaySet(cands)|)
  {
    var scored := FuseScored(lib, fuse, cands, p, query, limit);
    var filled := Backfill(lib, scored, cands, p, query, limit);
    FilledFromCandidates(lib, fuse, cands, p, query, limit);
    assert KeySet(filled) <= DisplaySet(cands) by {
      forall x | x in filled ensures x.key in DisplaySet(cands) {
        var c :| c in cands && x.key == c.display && x.movieIds == c.movieIds;
      }
    }
    DistinctKeysCard(filled);
    SubsetCard(KeySet(filled), DisplaySet(cands));
    if 0 < limit && |scored| < limit && |filled| < limit {
      assert DisplaySet(cands) <= KeySet(filled);
      SubsetCard(DisplaySet(cands), KeySet(filled));
    }
  }

  /**
    After Fuse and backfill, every ranked item comes from a candidate, and
    there are exactly `limit` of them, or one per distinct candidate name
    when there are fewer names than that.
  */
  lemma RankCandidatesSpec(lib: Lib, fuse: FuseOracle, cands: seq<SearchKey>, p: Projections, query: string, limit: nat)
    requires FuseSound(fuse)
    ensures var r := RankCandidates(lib, fuse, cands, p, query, limit);
            && (forall x :: x in r ==> FromCandidate(x, cands))
            && |r| == Min(limit, |DisplaySet(cands)|)
  {
    var filled := Backfill(lib, FuseScored(lib, fuse, cands, p, query, limit), cands, p, query, limit);
    var r := RankAndTruncate(filled, limit);
    FilledFromCandidates(lib, fuse, cands, p, query, limit);
    FilledCount(lib, fuse, cands, p, query, limit);
    forall x | x in r ensures FromCandidate(x, cands) {
      assert x in multiset(r);
    }
  }

  /** The ranked list behind the suggestions of a non-blank query with candidates. */
  lemma AutocompleteUnfold(lib: Lib, fuse: FuseOracle, store: seq<SearchKey>, query: string, limit: nat)
    requires Norm(lib, query) != []
    requires Candidates(store, Project(lib, query), limit) != []
    ensures var p := Project(lib, query);
            Autocomplete(lib, fuse, store, query, limit).results
              == ToSuggestions(RankCandidates(lib, fuse, Candidates(store, p, limit), p, query, limit))
  {
  }

  /**
    Soundness of `autocompleteService`: every suggestion names a stored
    record that matches the query through an enabled projection, with that
    record's movie ids.
  */
  lemma AutocompleteSound(lib: Lib, fuse: FuseOracle, store: seq<SearchKey>, query: string, limit: nat)
    requires FuseSound(fuse)
    ensures var out := Autocomplete(lib, fuse, store, query, limit);
            forall s :: s in out.results ==>
              exists k :: k in store && Matches(k, Project(lib, query)) && s.key == k.display && s.movieIds == k.movieIds
  {
    var p := Project(lib, query);
    var cands := Candidates(store, p, limit);
    if p.qn != [] && cands != [] {
      AutocompleteUnfold(lib, fuse, store, query, limit);
      RankCandidatesSpec(lib, fuse, cands, p, query, limit);
      SuggestionsFromStore(RankCandidates(lib, fuse, cands, p, query, limit), cands, store, p);
    }
  }

  /** Suggestions made from candidates' items name a matching stored record, with its ids. */
  lemma SuggestionsFromStore(ranked: seq<Scored>, cands: seq<SearchKey>, store: seq<SearchKey>, p: Projections)
    requires forall x :: x in ranked ==> FromCandidate(x, cands)
    requires forall c :: c in cands ==> c in store && Matches(c, p)
    ensures forall s :: s in ToSuggestions(ranked) ==>
              exists k :: k in store && Matches(k, p) && s.key == k.display && s.movieIds == k.movieIds
  {
    var out := ToSuggestions(ranked);
    forall s | s in out
      ensures exists k :: k in store && Matches(k, p) && s.key == k.display && s.movieIds == k.movieIds
    {
      var i :| 0 <= i < |out| && out[i] == s;
      assert ranked[i] in ranked;
      var c :| c in cands && ranked[i].key == c.display && ranked[i].movieIds == c.movieIds;
    }
  }

  /**
    Fullness of `autocompleteService`: a non-blank query gets `limit`
    suggestions, or one per distinct candidate name when there are fewer.
  */
  lemma AutocompleteCount(lib: Lib, fuse: FuseOracle, store: seq<SearchKey>, query: string, limit: nat)
    requires FuseSound(fuse)
    requires Norm(lib, query) != []
    ensures |Autocomplete(lib, fuse, store, query, limit).results|
              == Min(limit, |DisplaySet(Candidates(store, Project(lib, query), limit))|)
  {
    var p := Project(lib, query);
    var cands := Candidates(store, p, limit);
    if cands != [] {
      AutocompleteUnfold(lib, fuse, store, query, limit);
      RankCandidatesSpec(lib, fuse, cands, p, query, limit);
    } else {
      assert DisplaySet(cands) == {};
    }
  }

  /** With no more candidate names than `limit`, the ranked list names every candidate. */
  lemma RankedCoversCandidates(lib: Lib, fuse: FuseOracle, cands: seq<SearchKey>, p: Projections, query: string, limit: nat)
    requires FuseSound(fuse)
    requires |DisplaySet(cands)| <= limit
    ensures KeySet(RankCandidates(lib, fuse, cands, p, query, limit)) == DisplaySet(cands)
  {
    var ranked := RankCandidates(lib, fuse, cands, p, query, limit);
    RankCandidatesSpec(lib, fuse, cands, p, query, limit);
    assert KeySet(ranked) <= DisplaySet(cands) by {
      forall x | x in ranked ensures x.key in DisplaySet(cands) {
        var c :| c in cands && x.key == c.display && x.movieIds == c.movieIds;
      }
    }
    DistinctKeysCard(ranked);
    SubsetCard(KeySet(ranked), DisplaySet(cands));
  }

  /** The literal `"unknown"` has no colon, so a type tag never does when stored types have none. */
  function TypeTag(d: SearchKey): string {
    if d.keyType == [] then "unknown" else d.keyType
  }

  lemma ColonFreeLength(t1: string, t2: string, r1: string, r2: string)
    requires ':' !in t1 && ':' !in t2
    requires t1 + "::" + r1 == t2 + "::" + r2
    ensures |t1| == |t2|
  {
    var k := t1 + "::" + r1;
    assert k == t2 + "::" + r2;
    assert k[|t1|] == ':' && k[|t2|] == ':';
    assert forall i :: 0 <= i < |t1| ==> k[i] == t1[i];
    assert forall i :: 0 <= i < |t2| ==> k[i] == t2[i];
  }

  /**
    Identities of records whose key types contain no ':' determine the
    record's name: the first "::" ends the type.
  */
  lemma {:induction false} CompKeyDisplay(a: SearchKey, b: SearchKey)
    requires ':' !in a.keyType && ':' !in b.keyType
    requires CompKey(a) == CompKey(b)
    ensures a.display == b.display && TypeTag(a) == TypeTag(b)
  {
    var ta, tb := TypeTag(a), TypeTag(b);
    var k := CompKey(a);
    assert k == ta + "::" + a.display && k == tb + "::" + b.display;
    ColonFreeLength(ta, tb, a.display, b.display);
    assert ta == k[..|ta|] && tb == k[..|tb|];
    assert a.display == k[|ta| + 2..] && b.display == k[|tb| + 2..];
  }

  /**
    A small store is searched completely: when the store holds fewer
    records than the per-query cap and no more distinct names than
    `limit`, every record matching the query through an enabled projection
    shows up among the suggestions (assuming key types without ':').
  */
  lemma AutocompleteFindsAll(lib: Lib, fuse: FuseOracle, store: seq<SearchKey>, query: string, limit: nat)
    requires FuseSound(fuse)
    requires Norm(lib, query) != []
    requires |store| < Cap(limit) && |DisplaySet(store)| <= limit
    requires forall k :: k in store ==> ':' !in k.keyType
    ensures forall k :: k in store && Matches(k, Project(lib, query)) ==>
              k.display in Names(Autocomplete(lib, fuse, store, query, limit).results)
  {
    var p := Project(lib, query);
    var cands := Candidates(store, p, limit);
    var out := Autocomplete(lib, fuse, store, query, limit);
    MatchingNamesAreCandidates(store, p, limit);
    if cands != [] {
      assert DisplaySet(cands) <= DisplaySet(store);
      SubsetCard(DisplaySet(cands), DisplaySet(store));
      var ranked := RankCandidates(lib, fuse, cands, p, query, limit);
      AutocompleteUnfold(lib, fuse, store, query, limit);
      assert out.results == ToSuggestions(ranked);
      RankedCoversCandidates(lib, fuse, cands, p, query, limit);
      SuggestionNames(ranked);
    }
  }

  /** The names a list of suggestions offers. */
  function Names(out: seq<Suggestion>): set<string> {
    set x | x in out :: x.key
  }

  /** Projecting ranked items to suggestions keeps their names. */
  lemma SuggestionNames(ranked: seq<Scored>)
    ensures Names(ToSuggestions(ranked)) == KeySet(ranked)
  {
    var out := ToSuggestions(ranked);
    forall n | n in KeySet(ranked) ensures n in Names(out) {
      var x :| x in ranked && x.key == n;
      var i :| 0 <= i < |ranked| && ranked[i] == x;
      assert out[i] in out;
    }
    forall n | n in Names(out) ensures n in KeySet(ranked) {
      var y :| y in out && y.key == n;
      var i :| 0 <= i < |out| && out[i] == y;
      assert ranked[i] in ranked;
    }
  }

  /** In a store smaller than the cap, the name of every matching record is a candidate name. */
  lemma MatchingNamesAreCandidates(store: seq<SearchKey>, p: Projections, limit: nat)
    requires |store| < Cap(limit)
    requires forall k :: k in store ==> ':' !in k.keyType
    ensures forall k :: k in store && Matches(k, p) ==> k.display in DisplaySet(Candidates(store, p, limit))
  {
    var cands := Candidates(store, p, limit);
    forall k | k in store && Matches(k, p) ensures k.display in DisplaySet(cands) {
      var c :| c in cands && CompKey(c) == CompKey(k);
      CompKeyDisplay(c, k);
    }
  }

  /**
    A retrieved candidate is backfilled from the norm, jamo or initials
    source, never the display or fallback one: retrieval only returns
    records some enabled projection already prefixes.
  */
  lemma RetrievedSourceRank(lib: Lib, c: SearchKey, p: Projections, query: string)
    requires p.qn != [] && Matches(c, p)
    ensures Rank(ChooseBestSource(lib, c, p, query)) <= 2
    ensures MatchesOn(c, p, NormField) ==> ChooseBestSource(lib, c, p, query) == NormSource
  {
    if MatchesOn(c, p, NormField) {
      assert c.norm != [];
      assert SafeNorm(lib, c) == c.norm;
    } else if MatchesOn(c, p, JamoField) {
      assert c.jamoFull != [];
      assert SafeJamo(lib, c) == c.jamoFull;
    } else {
      assert UsesInitials(p) && p.qi.value <= c.initials;
    }
  }
}
