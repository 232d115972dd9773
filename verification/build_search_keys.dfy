/**
  The search-index build (`buildFromMovies`): every movie contributes its
  title, director and cast names as keys; keys are grouped with the ids of
  the movies that carry them; and one upsert per key writes the key's
  normalised and initials forms and adds the ids to the stored record.
*/
module BuildSearchKeys {
  import opened Wrappers
  import opened KorNorm
  import opened SearchKeyStore

  /** A cast entry; only its name is read here. An empty name stands for a missing one. */
  datatype CastMember = CastMember(name: string)

  /** The projection `{ title, director, cast }` of a movie document; "" for a missing text field. */
  datatype Movie = Movie(id: MovieId, title: string, director: string, cast: seq<CastMember>)

  predicate NoDup<T(==)>(s: seq<T>) {
    forall i, j :: 0 <= i < j < |s| ==> s[i] != s[j]
  }

  // ---------------------------------------------------------------------------
  // Keys of one movie

  /** `k` is one of the movie's non-empty texts: title, director or a cast name. */
  predicate IsKeyOf(k: string, m: Movie) {
    k != [] && (k == m.title || k == m.director || exists c :: c in m.cast && c.name == k)
  }

  /** `keys.add(k)` on an insertion-ordered set, skipping falsy `k`. */
  function AddKey(ks: seq<string>, k: string): (r: seq<string>)
    ensures NoDup(ks) ==> NoDup(r)
    ensures forall x :: x in r <==> x in ks || (x == k && k != [])
    ensures ks <= r
  {
    if k == [] || k in ks then ks else ks + [k]
  }

  function AddCast(ks: seq<string>, cast: seq<CastMember>): (r: seq<string>)
    ensures NoDup(ks) ==> NoDup(r)
    ensures forall x :: x in r <==> x in ks || (x != [] && exists c :: c in cast && c.name == x)
    decreases |cast|
  {
    if cast == [] then ks
    else
      var r := AddCast(AddKey(ks, cast[0].name), cast[1..]);
      assert forall c :: c in cast <==> c == cast[0] || c in cast[1..];
      r
  }

  /** The movie's key set, in insertion order: title, director, then cast names. */
  function MovieKeys(m: Movie): (ks: seq<string>)
    ensures NoDup(ks)
    ensures forall k :: k in ks <==> IsKeyOf(k, m)
  {
    AddCast(AddKey(AddKey([], m.title), m.director), m.cast)
  }

  // ---------------------------------------------------------------------------
  // Grouping: key_display -> ids

  /** One map entry: a key and the ids of the movies that carry it, in first-seen order. */
  datatype Group = Group(key: string, ids: seq<MovieId>)

  function Keys(gs: seq<Group>): set<string> {
    set g | g in gs :: g.key
  }

  /** The ids recorded for `k`, or none when `k` has no entry. */
  function IdsFor(gs: seq<Group>, k: string): set<MovieId> {
    if gs == [] then {}
    else if gs[0].key == k then set x | x in gs[0].ids
    else IdsFor(gs[1..], k)
  }

  /** One entry per key, with no id listed twice in an entry. */
  predicate WellFormed(gs: seq<Group>) {
    && (forall i, j :: 0 <= i < j < |gs| ==> gs[i].key != gs[j].key)
    && (forall i :: 0 <= i < |gs| ==> NoDup(gs[i].ids))
  }

  lemma WellFormedTail(gs: seq<Group>)
    requires gs != [] && WellFormed(gs)
    ensures WellFormed(gs[1..])
    ensures gs[0].key !in Keys(gs[1..])
    ensures Keys(gs) == {gs[0].key} + Keys(gs[1..])
  {
    forall i, j | 0 <= i < j < |gs[1..]| ensures gs[1..][i].key != gs[1..][j].key {
      assert gs[1..][i] == gs[i + 1] && gs[1..][j] == gs[j + 1];
    }
    forall g | g in gs[1..] ensures g.key != gs[0].key {
      var j :| 0 <= j < |gs[1..]| && gs[1..][j] == g;
      assert gs[j + 1] == g;
    }
    assert forall g :: g in gs <==> g == gs[0] || g in gs[1..];
  }

  lemma WellFormedCons(g: Group, rest: seq<Group>)
    requires WellFormed(rest) && NoDup(g.ids) && g.key !in Keys(rest)
    ensures WellFormed([g] + rest)
    ensures Keys([g] + rest) == {g.key} + Keys(rest)
  {
    var r := [g] + rest;
    assert forall x :: x in r <==> x == g || x in rest;
    forall j | 0 <= j < |rest| ensures rest[j].key != g.key {
      assert rest[j] in rest;
    }
    assert forall j :: 1 <= j < |r| ==> r[j] == rest[j - 1];
  }

  /** `if (!map.has(k)) map.set(k, new Set()); map.get(k).add(id)`. */
  function AddId(gs: seq<Group>, k: string, id: MovieId): (r: seq<Group>)
    requires WellFormed(gs)
    ensures WellFormed(r)
    ensures Keys(r) == Keys(gs) + {k}
  {
    if gs == [] then
      assert forall x :: x in [Group(k, [id])] <==> x == Group(k, [id]);
      [Group(k, [id])]
    else
      WellFormedTail(gs);
      if gs[0].key == k then
        var g := gs[0].(ids := if id in gs[0].ids then gs[0].ids else gs[0].ids + [id]);
        WellFormedCons(g, gs[1..]);
        [g] + gs[1..]
      else
        var rest := AddId(gs[1..], k, id);
        WellFormedCons(gs[0], rest);
        [gs[0]] + rest
  }

  /** Adding `id` under `k` lists it there and changes no other entry's ids. */
  lemma {:induction false} AddIdIds(gs: seq<Group>, k: string, id: MovieId, x: string)
    requires WellFormed(gs)
    ensures IdsFor(AddId(gs, k, id), x) == IdsFor(gs, x) + (if x == k then {id} else {})
    decreases |gs|
  {
    if gs != [] && gs[0].key != k {
      WellFormedTail(gs);
      AddIdIds(gs[1..], k, id, x);
    }
  }

  function AddKeys(gs: seq<Group>, ks: seq<string>, id: MovieId): (r: seq<Group>)
    requires WellFormed(gs)
    ensures WellFormed(r)
    ensures Keys(r) == Keys(gs) + (set k | k in ks)
    decreases |ks|
  {
    if ks == [] then gs
    else
      var r := AddKeys(AddId(gs, ks[0], id), ks[1..], id);
      assert (set k | k in ks) == {ks[0]} + (set k | k in ks[1..]);
      r
  }

  /** Adding a movie's keys lists its id under exactly those keys. */
  lemma {:induction false} AddKeysIds(gs: seq<Group>, ks: seq<string>, id: MovieId, x: string)
    requires WellFormed(gs)
    ensures IdsFor(AddKeys(gs, ks, id), x) == IdsFor(gs, x) + (if x in ks then {id} else {})
    decreases |ks|
  {
    if ks != [] {
      var next := AddId(gs, ks[0], id);
      AddKeysIds(next, ks[1..], id, x);
      AddIdIds(gs, ks[0], id, x);
      InCons(ks, x);
      assert AddKeys(gs, ks, id) == AddKeys(next, ks[1..], id);
    }
  }

  lemma InCons<T>(s: seq<T>, x: T)
    requires s != []
    ensures x in s <==> x == s[0] || x in s[1..]
  {
    assert s == [s[0]] + s[1..];
  }

  /** The keys contributed by some movie of `ms`. */
  function AllKeys(ms: seq<Movie>): set<string> {
    set m, k | m in ms && k in MovieKeys(m) :: k
  }

  /** The ids of the movies of `ms` that carry `k`. */
  function Carriers(ms: seq<Movie>, k: string): set<MovieId> {
    set m | m in ms && IsKeyOf(k, m) :: m.id
  }

  lemma AllKeysCons(ms: seq<Movie>)
    requires ms != []
    ensures AllKeys(ms) == (set k | k in MovieKeys(ms[0])) + AllKeys(ms[1..])
  {
    assert forall m :: m in ms <==> m == ms[0] || m in ms[1..];
  }

  lemma CarriersCons(ms: seq<Movie>, x: string)
    requires ms != []
    ensures Carriers(ms, x) == (if x in MovieKeys(ms[0]) then {ms[0].id} else {}) + Carriers(ms[1..], x)
  {
    assert forall m :: m in ms <==> m == ms[0] || m in ms[1..];
  }

  /** The cursor loop, continuing from the map `gs`. */
  function CollectFrom(gs: seq<Group>, ms: seq<Movie>): (r: seq<Group>)
    requires WellFormed(gs)
    ensures WellFormed(r)
    decreases |ms|
  {
    if ms == [] then gs
    else CollectFrom(AddKeys(gs, MovieKeys(ms[0]), ms[0].id), ms[1..])
  }

  /** The loop adds every key of the movies. */
  lemma {:induction false} CollectFromKeys(gs: seq<Group>, ms: seq<Movie>)
    requires WellFormed(gs)
    ensures Keys(CollectFrom(gs, ms)) == Keys(gs) + AllKeys(ms)
    decreases |ms|
  {
    if ms != [] {
      var g1 := AddKeys(gs, MovieKeys(ms[0]), ms[0].id);
      CollectFromKeys(g1, ms[1..]);
      AllKeysCons(ms);
    }
  }

  /** Under each key, the loop adds the ids of the movies carrying it. */
  lemma {:induction false} CollectFromIds(gs: seq<Group>, ms: seq<Movie>, x: string)
    requires WellFormed(gs)
    ensures IdsFor(CollectFrom(gs, ms), x) == IdsFor(gs, x) + Carriers(ms, x)
    decreases |ms|
  {
    if ms != [] {
      var g1 := AddKeys(gs, MovieKeys(ms[0]), ms[0].id);
      CollectFromIds(g1, ms[1..], x);
      AddKeysIds(gs, MovieKeys(ms[0]), ms[0].id, x);
      CarriersCons(ms, x);
    }
  }

  /**
    The key map after the cursor loop: one entry per distinct key of any
    movie, listing exactly the ids of the movies that carry that key.
  */
  function Collect(ms: seq<Movie>): (gs: seq<Group>)
    ensures WellFormed(gs)
    ensures Keys(gs) == AllKeys(ms)
    ensures forall k :: IdsFor(gs, k) == Carriers(ms, k)
  {
    CollectFromKeys([], ms);
    forall k ensures IdsFor(CollectFrom([], ms), k) == Carriers(ms, k) {
      CollectFromIds([], ms, k);
    }
    CollectFrom([], ms)
  }

  // ---------------------------------------------------------------------------
  // Upserts

  /** `updateOne({ key_display }, { $set: { key_display, key_norm, key_initials }, $addToSet: { movieIds: { $each } } }, upsert)`. */
  datatype Upsert = Upsert(display: string, norm: string, initials: string, ids: seq<MovieId>)

  function Ops(lib: Lib, gs: seq<Group>): (ops: seq<Upsert>)
    ensures |ops| == |gs|
    ensures forall i :: 0 <= i < |gs| ==>
              ops[i] == Upsert(gs[i].key, Norm(lib, gs[i].key), ToInitials(lib, gs[i].key), gs[i].ids)
  {
    if gs == [] then []
    else [Upsert(gs[0].key, Norm(lib, gs[0].key), ToInitials(lib, gs[0].key), gs[0].ids)] + Ops(lib, gs[1..])
  }

  /** `$addToSet` with `$each`: appends, in order, each value not already present. */
  function AddToSet(xs: seq<MovieId>, ys: seq<MovieId>): (r: seq<MovieId>)
    ensures xs <= r
    ensures forall x :: x in r <==> x in xs || x in ys
    ensures NoDup(xs) ==> NoDup(r)
    ensures (forall i :: 0 <= i < |ys| ==> ys[i] in xs) ==> r == xs
    decreases |ys|
  {
    if ys == [] then xs
    else if ys[0] in xs then AddToSet(xs, ys[1..])
    else AddToSet(xs + [ys[0]], ys[1..])
  }

  /** The position of the first record whose display is `k`: the one `updateOne` picks. */
  function FindDisplay(store: seq<SearchKey>, k: string): (r: Option<nat>)
    ensures r.Some? ==> r.value < |store| && store[r.value].display == k
    ensures r.Some? ==> forall j :: 0 <= j < r.value ==> store[j].display != k
    ensures r.None? <==> forall j :: 0 <= j < |store| ==> store[j].display != k
  {
    if store == [] then None
    else if store[0].display == k then Some(0)
    else match FindDisplay(store[1..], k)
      case None => None
      case Some(i) => Some(i + 1)
  }

  /** One upsert: update the first record with that display, or append a new one. */
  function ApplyUpsert(store: seq<SearchKey>, op: Upsert): seq<SearchKey> {
    match FindDisplay(store, op.display)
    case Some(i) =>
      store[i := store[i].(norm := op.norm, initials := op.initials,
                           movieIds := AddToSet(store[i].movieIds, op.ids))]
    case None =>
      store + [SearchKey(op.display, "", op.norm, "", op.initials, AddToSet([], op.ids))]
  }

  /** The store already reflects `op`: its record has the op's forms and ids. */
  predicate Satisfied(store: seq<SearchKey>, op: Upsert) {
    match FindDisplay(store, op.display)
    case None => false
    case Some(i) =>
      store[i].norm == op.norm && store[i].initials == op.initials
      && forall x :: x in op.ids ==> x in store[i].movieIds
  }

  /** `FindDisplay` picks exactly the first position holding `k`. */
  lemma {:induction false} FindDisplayIs(store: seq<SearchKey>, k: string, i: nat)
    requires i < |store| && store[i].display == k
    requires forall j :: 0 <= j < i ==> store[j].display != k
    ensures FindDisplay(store, k) == Some(i)
    decreases i
  {
    if i > 0 {
      FindDisplayIs(store[1..], k, i - 1);
    }
  }

  /**
    An upsert leaves its key satisfied, touches no record with another
    display, appends at most one record, and only adds movie ids.
  */
  lemma ApplyUpsertSpec(store: seq<SearchKey>, op: Upsert)
    ensures var r := ApplyUpsert(store, op);
            && Satisfied(r, op)
            && |store| <= |r| <= |store| + 1
            && (forall j :: 0 <= j < |store| && store[j].display != op.display ==> r[j] == store[j])
            && (forall j :: 0 <= j < |store| ==> r[j].display == store[j].display && store[j].movieIds <= r[j].movieIds)
            && (|r| == |store| + 1 ==> r[|store|].display == op.display && forall j :: 0 <= j < |store| ==> store[j].display != op.display)
    ensures var r := ApplyUpsert(store, op);
            forall j :: 0 <= j < |r| && FindDisplay(r, op.display) == Some(j) ==>
              forall x :: x in r[j].movieIds <==> (j < |store| && x in store[j].movieIds) || x in op.ids
    ensures var r := ApplyUpsert(store, op);
            forall j :: 0 <= j < |r| && FindDisplay(r, op.display) != Some(j) ==> j < |store| && r[j] == store[j]
    ensures IdsNoDup(store) ==> IdsNoDup(ApplyUpsert(store, op))
  {
    var r := ApplyUpsert(store, op);
    match FindDisplay(store, op.display)
    case Some(i) =>
      FindDisplayIs(r, op.display, i);
      UpsertFoundIds(store, op, i);
    case None =>
      FindDisplayIs(r, op.display, |store|);
      UpsertNewIds(store, op);
  }

  /** The record an upsert updates holds its old ids and the upsert's; every other record is as before. */
  lemma UpsertFoundIds(store: seq<SearchKey>, op: Upsert, i: nat)
    requires FindDisplay(store, op.display) == Some(i)
    ensures var r := ApplyUpsert(store, op);
            && |r| == |store|
            && (forall x :: x in r[i].movieIds <==> x in store[i].movieIds || x in op.ids)
            && (forall j :: 0 <= j < |r| && j != i ==> r[j] == store[j])
            && (IdsNoDup(store) ==> IdsNoDup(r))
  {
    var ids := AddToSet(store[i].movieIds, op.ids);
    var r := store[i := store[i].(norm := op.norm, initials := op.initials, movieIds := ids)];
    assert ApplyUpsert(store, op) == r;
    if IdsNoDup(store) {
      assert NoDup(store[i].movieIds);
      assert NoDup(ids);
      forall j | 0 <= j < |r| ensures NoDup(r[j].movieIds) {
        if j != i {
          assert r[j] == store[j];
        }
      }
    }
  }

  /** The record an upsert appends holds exactly the upsert's ids, once each; the rest is as before. */
  lemma UpsertNewIds(store: seq<SearchKey>, op: Upsert)
    requires FindDisplay(store, op.display) == None
    ensures var r := ApplyUpsert(store, op);
            && |r| == |store| + 1
            && (forall x :: x in r[|store|].movieIds <==> x in op.ids)
            && (forall j :: 0 <= j < |store| ==> r[j] == store[j])
            && (IdsNoDup(store) ==> IdsNoDup(r))
  {
    var ids := AddToSet([], op.ids);
    var r := store + [SearchKey(op.display, "", op.norm, "", op.initials, ids)];
    assert ApplyUpsert(store, op) == r;
    assert NoDup<MovieId>([]);
    if IdsNoDup(store) {
      forall j | 0 <= j < |r| ensures NoDup(r[j].movieIds) {
        if j < |store| {
          assert r[j] == store[j];
        }
      }
    }
  }

  /** No record lists a movie id twice. */
  predicate IdsNoDup(store: seq<SearchKey>) {
    forall j :: 0 <= j < |store| ==> NoDup(store[j].movieIds)
  }

  /**
    An upsert the store already reflects changes nothing in display, norm,
    initials and movieIds (the schema's `updatedAt` timestamp is not modelled).
  */
  lemma SatisfiedUpsertNoop(store: seq<SearchKey>, op: Upsert)
    requires Satisfied(store, op)
    ensures ApplyUpsert(store, op) == store
  {
    var i := FindDisplay(store, op.display).value;
    assert FindDisplay(store, op.display) == Some(i);
    assert forall x :: x in op.ids ==> x in store[i].movieIds;
    forall j | 0 <= j < |op.ids| ensures op.ids[j] in store[i].movieIds {
      assert op.ids[j] in op.ids;
    }
    assert AddToSet(store[i].movieIds, op.ids) == store[i].movieIds;
    assert store[i].(norm := op.norm, initials := op.initials, movieIds := AddToSet(store[i].movieIds, op.ids)) == store[i];
  }

  /** An upsert for another display keeps `other` satisfied. */
  lemma UpsertKeepsSatisfied(store: seq<SearchKey>, op: Upsert, other: Upsert)
    requires Satisfied(store, other) && other.display != op.display
    ensures Satisfied(ApplyUpsert(store, op), other)
  {
    var r := ApplyUpsert(store, op);
    var i := FindDisplay(store, other.display).value;
    ApplyUpsertSpec(store, op);
    FindDisplayIs(r, other.display, i);
  }

  /** `SearchKey.bulkWrite(ops)`, ordered. */
  function BulkWrite(store: seq<SearchKey>, ops: seq<Upsert>): seq<SearchKey>
    decreases |ops|
  {
    if ops == [] then store else BulkWrite(ApplyUpsert(store, ops[0]), ops[1..])
  }

  predicate DistinctDisplays(ops: seq<Upsert>) {
    forall i, j :: 0 <= i < j < |ops| ==> ops[i].display != ops[j].display
  }

  /** After a bulk write of upserts for distinct displays, the store reflects every one of them. */
  lemma {:induction false} BulkWriteSatisfies(store: seq<SearchKey>, ops: seq<Upsert>)
    requires DistinctDisplays(ops)
    ensures forall op :: op in ops ==> Satisfied(BulkWrite(store, ops), op)
    decreases |ops|
  {
    if ops != [] {
      var s1 := ApplyUpsert(store, ops[0]);
      ApplyUpsertSpec(store, ops[0]);
      BulkWriteSatisfies(s1, ops[1..]);
      BulkWriteKeeps(s1, ops[1..], ops[0]);
    }
  }

  /** Later upserts for other displays keep an earlier one satisfied. */
  lemma {:induction false} BulkWriteKeeps(store: seq<SearchKey>, ops: seq<Upsert>, done: Upsert)
    requires Satisfied(store, done)
    requires forall op :: op in ops ==> op.display != done.display
    ensures Satisfied(BulkWrite(store, ops), done)
    decreases |ops|
  {
    if ops != [] {
      UpsertKeepsSatisfied(store, ops[0], done);
      BulkWriteKeeps(ApplyUpsert(store, ops[0]), ops[1..], done);
    }
  }

  /** A bulk write of upserts the store already reflects changes nothing. */
  lemma {:induction false} BulkWriteNoop(store: seq<SearchKey>, ops: seq<Upsert>)
    requires forall op :: op in ops ==> Satisfied(store, op)
    ensures BulkWrite(store, ops) == store
    decreases |ops|
  {
    if ops != [] {
      SatisfiedUpsertNoop(store, ops[0]);
      BulkWriteNoop(store, ops[1..]);
    }
  }

  /** A bulk write never lists a movie id twice in a record that did not already. */
  lemma {:induction false} BulkWriteNoDup(store: seq<SearchKey>, ops: seq<Upsert>)
    ensures IdsNoDup(store) ==> IdsNoDup(BulkWrite(store, ops))
    decreases |ops|
  {
    if ops != [] {
      ApplyUpsertSpec(store, ops[0]);
      BulkWriteNoDup(ApplyUpsert(store, ops[0]), ops[1..]);
    }
  }

  /** A bulk write only appends records and only adds ids; records for other displays are untouched. */
  lemma {:induction false} BulkWriteFrame(store: seq<SearchKey>, ops: seq<Upsert>)
    ensures var r := BulkWrite(store, ops);
            && |store| <= |r|
            && (forall j :: 0 <= j < |store| ==> r[j].display == store[j].display && store[j].movieIds <= r[j].movieIds)
            && (forall j :: 0 <= j < |store| && (forall op :: op in ops ==> op.display != store[j].display) ==> r[j] == store[j])
    decreases |ops|
  {
    if ops != [] {
      var s1 := ApplyUpsert(store, ops[0]);
      ApplyUpsertSpec(store, ops[0]);
      BulkWriteFrame(s1, ops[1..]);
      var r := BulkWrite(store, ops);
      forall j | 0 <= j < |store| ensures store[j].movieIds <= r[j].movieIds {
        assert store[j].movieIds <= s1[j].movieIds <= r[j].movieIds;
      }
    }
  }

  // ---------------------------------------------------------------------------
  // The build

  /** `buildFromMovies`: the store after the bulk write, and `{ keys: ops.length }`. */
  function Build(lib: Lib, movies: seq<Movie>, store: seq<SearchKey>): (r: (seq<SearchKey>, nat))
    ensures r.1 == |AllKeys(movies)|
    ensures movies == [] ==> r.0 == store
    ensures AllKeys(movies) == {} ==> r.0 == store
    ensures IdsNoDup(store) ==> IdsNoDup(r.0)
  {
    var ops := BuildOps(lib, movies);
    BulkWriteNoDup(store, ops);
    (if ops == [] then store else BulkWrite(store, ops), |ops|)
  }

  /** The upserts of a build: one per distinct key, none without movies. */
  function BuildOps(lib: Lib, movies: seq<Movie>): (ops: seq<Upsert>)
    ensures |ops| == |AllKeys(movies)|
    ensures movies == [] ==> ops == []
  {
    OpsCount(lib, movies);
    Ops(lib, Collect(movies))
  }

  /** Every upsert of a build targets a key of some movie. */
  lemma OpsDisplays(lib: Lib, movies: seq<Movie>)
    ensures forall op :: op in BuildOps(lib, movies) ==> op.display in AllKeys(movies)
  {
    var gs := Collect(movies);
    var ops := BuildOps(lib, movies);
    forall op | op in ops ensures op.display in AllKeys(movies) {
      var i :| 0 <= i < |ops| && ops[i] == op;
      assert gs[i] in gs;
    }
  }

  /** One upsert per distinct key. */
  lemma OpsCount(lib: Lib, movies: seq<Movie>)
    ensures |Ops(lib, Collect(movies))| == |AllKeys(movies)|
    ensures movies == [] ==> Ops(lib, Collect(movies)) == []
  {
    KeysCard(Collect(movies));
    if movies == [] {
      assert AllKeys(movies) == {};
    }
  }

  lemma {:induction false} KeysCard(gs: seq<Group>)
    requires WellFormed(gs)
    ensures |Keys(gs)| == |gs|
    decreases |gs|
  {
    if gs != [] {
      WellFormedTail(gs);
      KeysCard(gs[1..]);
    }
  }

  lemma OpsDistinct(lib: Lib, gs: seq<Group>)
    requires WellFormed(gs)
    ensures DistinctDisplays(Ops(lib, gs))
  {
  }

  /** The ids listed in the entry for `k`, when present, are its recorded ids. */
  lemma IdsForEntry(gs: seq<Group>, i: nat)
    requires WellFormed(gs) && i < |gs|
    ensures IdsFor(gs, gs[i].key) == set x | x in gs[i].ids
  {
    if i > 0 {
      assert gs[0].key != gs[i].key;
      WellFormedTail(gs);
      IdsForEntry(gs[1..], i - 1);
    }
  }

  /** Every key of every movie has an entry in the key map that lists the movie. */
  lemma CollectHas(movies: seq<Movie>, m: Movie, k: string) returns (i: nat)
    requires m in movies && IsKeyOf(k, m)
    ensures var gs := Collect(movies);
            i < |gs| && gs[i].key == k && m.id in gs[i].ids
  {
    var gs := Collect(movies);
    assert k in MovieKeys(m);
    assert k in Keys(gs);
    var g :| g in gs && g.key == k;
    i :| 0 <= i < |gs| && gs[i] == g;
    IdsForEntry(gs, i);
    assert m.id in Carriers(movies, k);
  }

  /**
    After a build, every key of every movie has a record whose normalised
    and initials forms are those of the key, and which lists the movie.
  */
  lemma BuildCovers(lib: Lib, movies: seq<Movie>, store: seq<SearchKey>, m: Movie, k: string)
    requires m in movies && IsKeyOf(k, m)
    ensures var s := Build(lib, movies, store).0;
            exists j :: 0 <= j < |s| && s[j].display == k && s[j].norm == Norm(lib, k)
                        && s[j].initials == ToInitials(lib, k) && m.id in s[j].movieIds
  {
    var gs := Collect(movies);
    var ops := Ops(lib, gs);
    var i := CollectHas(movies, m, k);
    var s := BulkWrite(store, ops);
    assert Build(lib, movies, store).0 == s;
    OpsDistinct(lib, gs);
    BulkWriteSatisfies(store, ops);
    assert ops[i] in ops;
    assert Satisfied(s, ops[i]);
    var j := FindDisplay(s, k).value;
    assert s[j].display == k;
  }

  /**
    Running the build a second time over the same movies changes nothing in
    display, norm, initials and movieIds (timestamps are not modelled).
  */
  lemma BuildIdempotent(lib: Lib, movies: seq<Movie>, store: seq<SearchKey>)
    ensures var once := Build(lib, movies, store).0;
            Build(lib, movies, once).0 == once
  {
    var gs := Collect(movies);
    var ops := Ops(lib, gs);
    if ops != [] {
      OpsDistinct(lib, gs);
      BulkWriteSatisfies(store, ops);
      BulkWriteNoop(BulkWrite(store, ops), ops);
    }
  }

  /**
    A build keeps every existing record in place with the same display,
    only adds movie ids to it, and leaves records whose display is no
    movie's key exactly as they were.
  */
  lemma BuildFrame(lib: Lib, movies: seq<Movie>, store: seq<SearchKey>)
    ensures var s := Build(lib, movies, store).0;
            && |store| <= |s|
            && (forall j :: 0 <= j < |store| ==> s[j].display == store[j].display && store[j].movieIds <= s[j].movieIds)
            && (forall j :: 0 <= j < |store| && store[j].display !in AllKeys(movies) ==> s[j] == store[j])
  {
    var ops := BuildOps(lib, movies);
    if ops != [] {
      BulkWriteFrame(store, ops);
      OpsDisplays(lib, movies);
    }
  }
}
