/**
  The duplicate-movie clean-up: movies are grouped by title, release date
  and running time; in every group with more than one movie the earliest
  created is kept and the rest are deleted by id.
*/
module RemoveDuplicates {
  import opened Sorting

  /** The fields of a stored movie the clean-up reads; dates are integer timestamps. */
  datatype Movie = Movie(id: int, title: string, releaseDate: int, runningTime: int, createdAt: int)

  /** The `$group` key. */
  datatype Key = Key(title: string, releaseDate: int, runningTime: int)

  function KeyOf(m: Movie): Key {
    Key(m.title, m.releaseDate, m.runningTime)
  }

  function IdOf(m: Movie): int {
    m.id
  }

  function KeySet(store: seq<Movie>): set<Key> {
    set m | m in store :: KeyOf(m)
  }

  /** The movies of `store` with key `k`, in store order. */
  function OfKey(store: seq<Movie>, k: Key): (r: seq<Movie>)
    ensures |r| <= |store|
    ensures forall m :: m in r <==> m in store && KeyOf(m) == k
    ensures (forall m :: m in store ==> KeyOf(m) != k) ==> r == []
  {
    if store == [] then []
    else
      var last := store[|store| - 1];
      assert store == store[..|store| - 1] + [last];
      OfKey(store[..|store| - 1], k) + (if KeyOf(last) == k then [last] else [])
  }

  // ---------------------------------------------------------------------------
  // The $group stage

  /** One `$group` output document: the key and the movies `$push`ed into it. */
  datatype Group = Group(key: Key, movies: seq<Movie>)

  function GroupKeys(gs: seq<Group>): set<Key> {
    set g | g in gs :: g.key
  }

  predicate KeysDistinct(gs: seq<Group>) {
    forall i, j :: 0 <= i < j < |gs| ==> gs[i].key != gs[j].key
  }

  predicate NonEmptyGroups(gs: seq<Group>) {
    forall g :: g in gs ==> g.movies != []
  }

  /** The movies of the group with key `k`, or none. */
  function MoviesFor(gs: seq<Group>, k: Key): seq<Movie> {
    if gs == [] then [] else if gs[0].key == k then gs[0].movies else MoviesFor(gs[1..], k)
  }

  /** The number of movies across all groups. */
  function TotalSize(gs: seq<Group>): nat {
    if gs == [] then 0 else |gs[0].movies| + TotalSize(gs[1..])
  }

  /** `$push` of one movie: onto the group with its key, or a new group at the end. */
  function Push(gs: seq<Group>, m: Movie): (r: seq<Group>)
    ensures TotalSize(r) == TotalSize(gs) + 1
    ensures NonEmptyGroups(gs) ==> NonEmptyGroups(r)
  {
    if gs == [] then [Group(KeyOf(m), [m])]
    else if gs[0].key == KeyOf(m) then [Group(gs[0].key, gs[0].movies + [m])] + gs[1..]
    else [gs[0]] + Push(gs[1..], m)
  }

  lemma GroupKeysCons(g: Group, gs: seq<Group>)
    ensures GroupKeys([g] + gs) == {g.key} + GroupKeys(gs)
  {
    var all := [g] + gs;
    assert forall h :: h in all <==> h == g || h in gs;
  }

  /** Pushing adds the movie's key to the group keys. */
  lemma {:induction false} PushKeys(gs: seq<Group>, m: Movie)
    ensures GroupKeys(Push(gs, m)) == GroupKeys(gs) + {KeyOf(m)}
  {
    if gs != [] {
      assert gs == [gs[0]] + gs[1..];
      GroupKeysCons(gs[0], gs[1..]);
      if gs[0].key == KeyOf(m) {
        GroupKeysCons(Group(gs[0].key, gs[0].movies + [m]), gs[1..]);
      } else {
        PushKeys(gs[1..], m);
        GroupKeysCons(gs[0], Push(gs[1..], m));
      }
    }
  }

  /** Pushing appends the movie to its own key's group and leaves the others alone. */
  lemma {:induction false} PushMovies(gs: seq<Group>, m: Movie, k: Key)
    ensures MoviesFor(Push(gs, m), k) == MoviesFor(gs, k) + (if k == KeyOf(m) then [m] else [])
  {
    if gs != [] && gs[0].key != KeyOf(m) {
      PushMovies(gs[1..], m, k);
    }
  }

  /** In a list with distinct keys, the head's key is not among the tail's. */
  lemma DistinctHead(gs: seq<Group>)
    requires gs != [] && KeysDistinct(gs)
    ensures KeysDistinct(gs[1..]) && gs[0].key !in GroupKeys(gs[1..])
  {
    forall h | h in gs[1..] ensures h.key != gs[0].key {
      var i :| 0 <= i < |gs[1..]| && gs[1..][i] == h;
      assert gs[i + 1] == h;
    }
  }

  /** A group whose key is new can go in front of a list with distinct keys. */
  lemma DistinctCons(g: Group, rest: seq<Group>)
    requires KeysDistinct(rest) && g.key !in GroupKeys(rest)
    ensures KeysDistinct([g] + rest)
  {
    var r := [g] + rest;
    forall j | 0 < j < |r| ensures r[0].key != r[j].key {
      assert r[j] in rest;
    }
  }

  /** Pushing keeps the group keys distinct. */
  lemma {:induction false} PushDistinct(gs: seq<Group>, m: Movie)
    requires KeysDistinct(gs)
    ensures KeysDistinct(Push(gs, m))
  {
    if gs != [] {
      DistinctHead(gs);
      if gs[0].key == KeyOf(m) {
        DistinctCons(Group(gs[0].key, gs[0].movies + [m]), gs[1..]);
      } else {
        PushDistinct(gs[1..], m);
        PushKeys(gs[1..], m);
        DistinctCons(gs[0], Push(gs[1..], m));
      }
    }
  }

  /**
    The `$group` stage: every movie pushed in store order. One group per
    distinct key, each holding exactly that key's movies in store order.
  */
  function GroupAll(store: seq<Movie>): (r: seq<Group>)
    ensures KeysDistinct(r) && NonEmptyGroups(r)
    ensures GroupKeys(r) == KeySet(store)
    ensures TotalSize(r) == |store|
    ensures forall k :: MoviesFor(r, k) == OfKey(store, k)
  {
    if store == [] then []
    else
      var front := store[..|store| - 1];
      var last := store[|store| - 1];
      assert store == front + [last];
      assert KeySet(store) == KeySet(front) + {KeyOf(last)};
      var before := GroupAll(front);
      PushKeys(before, last);
      PushDistinct(before, last);
      assert forall k :: MoviesFor(Push(before, last), k) == OfKey(store, k) by {
        forall k ensures MoviesFor(Push(before, last), k) == OfKey(store, k) {
          PushMovies(before, last, k);
        }
      }
      Push(before, last)
  }

  /** With distinct keys, a group's movies are what `MoviesFor` finds under its key. */
  lemma {:induction false} GroupMovies(gs: seq<Group>, g: Group)
    requires KeysDistinct(gs) && g in gs
    ensures g.movies == MoviesFor(gs, g.key)
  {
    if gs[0] != g {
      assert g in gs[1..];
      var j :| 0 <= j < |gs| && gs[j] == g;
      assert gs[0].key != g.key;
      GroupMovies(gs[1..], g);
    }
  }

  /** The group of key `k` is in the grouped output. */
  lemma {:induction false} GroupFor(gs: seq<Group>, k: Key)
    requires k in GroupKeys(gs)
    ensures exists g :: g in gs && g.key == k && g.movies == MoviesFor(gs, k)
  {
    if gs[0].key != k {
      assert k in GroupKeys(gs[1..]);
      GroupFor(gs[1..], k);
      var g :| g in gs[1..] && g.key == k && g.movies == MoviesFor(gs[1..], k);
      assert g in gs;
    }
  }

  lemma {:induction false} DistinctKeysCard(gs: seq<Group>)
    requires KeysDistinct(gs)
    ensures |GroupKeys(gs)| == |gs|
  {
    if gs != [] {
      DistinctKeysCard(gs[1..]);
      assert GroupKeys(gs) == {gs[0].key} + GroupKeys(gs[1..]);
      assert gs[0].key !in GroupKeys(gs[1..]);
    }
  }

  // ---------------------------------------------------------------------------
  // Deletion

  /** The `$match: { count: { $gt: 1 } }` stage. */
  function Duplicates(gs: seq<Group>): (r: seq<Group>)
    ensures forall g :: g in r <==> g in gs && |g.movies| > 1
    ensures (forall g :: g in gs ==> |g.movies| <= 1) ==> r == []
    ensures NonEmptyGroups(gs) ==> TotalSize(r) - |r| == TotalSize(gs) - |gs|
  {
    if gs == [] then []
    else if |gs[0].movies| > 1 then [gs[0]] + Duplicates(gs[1..])
    else Duplicates(gs[1..])
  }

  function CreatedKey(m: Movie): seq<int> {
    [m.createdAt]
  }

  /** `movies.sort((a, b) => a.created_at - b.created_at)`: a stable sort, earliest first. */
  function Ranked(g: Group): seq<Movie> {
    SortBy(g.movies, CreatedKey)
  }

  /** `slice(1)`: everything after the first element. */
  function Drop1<T>(s: seq<T>): (r: seq<T>)
    ensures |r| == if s == [] then 0 else |s| - 1
    ensures forall x :: x in r ==> x in s
  {
    if s == [] then [] else s[1..]
  }

  /** `moviesToKeep.slice(1)` of one group. */
  function Deleted(g: Group): seq<Movie> {
    Drop1(Ranked(g))
  }

  /** The movies to delete from every duplicate group, in group order. */
  function ToRemove(gs: seq<Group>): (r: seq<Movie>)
    ensures forall x :: x in r <==> exists g :: g in gs && x in Deleted(g)
    ensures NonEmptyGroups(gs) ==> |r| + |gs| == TotalSize(gs)
  {
    if gs == [] then []
    else
      var rest := ToRemove(gs[1..]);
      ToRemoveStep(gs, rest);
      Deleted(gs[0]) + rest
  }

  lemma ToRemoveStep(gs: seq<Group>, rest: seq<Movie>)
    requires gs != []
    requires forall x :: x in rest <==> exists g :: g in gs[1..] && x in Deleted(g)
    ensures forall x :: x in Deleted(gs[0]) + rest <==> exists g :: g in gs && x in Deleted(g)
  {
    forall x | x in rest ensures exists g :: g in gs && x in Deleted(g) {
      var g :| g in gs[1..] && x in Deleted(g);
      assert g in gs;
    }
    forall x, g | g in gs && x in Deleted(g) ensures x in Deleted(gs[0]) + rest {
      if g != gs[0] {
        assert g in gs[1..];
      }
    }
  }

  function Ids(ms: seq<Movie>): set<int> {
    set m | m in ms :: m.id
  }

  /** The store after `findByIdAndDelete` of every id in `ids`. */
  function Delete(store: seq<Movie>, ids: set<int>): (r: seq<Movie>)
    ensures forall m :: m in r <==> m in store && m.id !in ids
    ensures DistinctBy(store, IdOf) ==> DistinctBy(r, IdOf)
  {
    if store == [] then []
    else
      var rest := Delete(store[1..], ids);
      assert forall m :: m in rest ==> m in store[1..];
      if store[0].id in ids then rest else [store[0]] + rest
  }

  /** What the clean-up leaves behind and how many deletions it counts (`totalRemoved`). */
  datatype Outcome = Outcome(remaining: seq<Movie>, removed: nat)

  /** `removeDuplicateMovies`, with an early return when there are no duplicate groups. */
  function RemoveDuplicates(store: seq<Movie>): (r: Outcome)
    ensures forall m :: m in r.remaining ==> m in store
    ensures DistinctBy(store, IdOf) ==> DistinctBy(r.remaining, IdOf)
  {
    var dups := Duplicates(GroupAll(store));
    if dups == [] then Outcome(store, 0)
    else
      var rm := ToRemove(dups);
      Outcome(Delete(store, Ids(rm)), |rm|)
  }

  /** The movie of key `k` that is kept: the first after sorting by creation time. */
  function Survivor(store: seq<Movie>, k: Key): Movie
    requires OfKey(store, k) != []
  {
    SortBy(OfKey(store, k), CreatedKey)[0]
  }

  // ---------------------------------------------------------------------------
  // Properties

  /** With no two movies sharing a key, nothing is deleted. */
  lemma NoDuplicatesNoDeletion(store: seq<Movie>)
    requires forall i, j :: 0 <= i < j < |store| ==> KeyOf(store[i]) != KeyOf(store[j])
    ensures RemoveDuplicates(store) == Outcome(store, 0)
  {
    var gs := GroupAll(store);
    forall g | g in gs ensures |g.movies| <= 1 {
      GroupMovies(gs, g);
      OfKeyAtMostOne(store, g.key);
    }
  }

  lemma {:induction false} OfKeyAtMostOne(store: seq<Movie>, k: Key)
    requires forall i, j :: 0 <= i < j < |store| ==> KeyOf(store[i]) != KeyOf(store[j])
    ensures |OfKey(store, k)| <= 1
  {
    if store != [] {
      var front := store[..|store| - 1];
      var last := store[|store| - 1];
      OfKeyAtMostOne(front, k);
      if KeyOf(last) == k {
        assert forall m :: m in front ==> KeyOf(m) != k by {
          forall m | m in front ensures KeyOf(m) != k {
            var i :| 0 <= i < |front| && front[i] == m;
            assert store[i] == m;
          }
        }
      }
    }
  }

  /** The deletion count is the number of movies less the number of distinct keys. */
  lemma RemovedCount(store: seq<Movie>)
    ensures RemoveDuplicates(store).removed == |store| - |KeySet(store)|
  {
    var gs := GroupAll(store);
    DistinctKeysCard(gs);
    var dups := Duplicates(gs);
    assert NonEmptyGroups(dups);
  }

  /** Two movies with the same id in a store of distinct ids are the same movie. */
  lemma SameId(store: seq<Movie>, x: Movie, y: Movie)
    requires DistinctBy(store, IdOf) && x in store && y in store
    ensures x.id == y.id ==> x == y
  {
    var i :| 0 <= i < |store| && store[i] == x;
    var j :| 0 <= j < |store| && store[j] == y;
    assert IdOf(store[i]) == x.id && IdOf(store[j]) == y.id;
  }

  lemma {:induction false} OfKeyDistinct(store: seq<Movie>, k: Key)
    requires DistinctBy(store, IdOf)
    ensures DistinctBy(OfKey(store, k), IdOf)
    decreases |store|
  {
    if store != [] {
      var front := store[..|store| - 1];
      var last := store[|store| - 1];
      DistinctFront(store, IdOf);
      OfKeyDistinct(front, k);
      var a := OfKey(front, k);
      if KeyOf(last) == k {
        forall i | 0 <= i < |a| ensures IdOf(a[i]) != IdOf(last) {
          assert a[i] in front;
          var j :| 0 <= j < |front| && front[j] == a[i];
        }
        DistinctSnoc(a, last, IdOf);
      } else {
        assert OfKey(store, k) == a + [];
      }
    }
  }

  /** The survivor of a key belongs to that key and was created no later than any movie of it. */
  lemma SurvivorIsEarliest(store: seq<Movie>, k: Key)
    requires OfKey(store, k) != []
    ensures var s := Survivor(store, k);
            && s in store && KeyOf(s) == k
            && forall m :: m in store && KeyOf(m) == k ==> s.createdAt <= m.createdAt
  {
    var ranked := SortBy(OfKey(store, k), CreatedKey);
    SortMembers(OfKey(store, k), CreatedKey);
    assert ranked[0] in ranked;
    forall m | m in store && KeyOf(m) == k ensures ranked[0].createdAt <= m.createdAt {
      assert m in ranked;
      var i :| 0 <= i < |ranked| && ranked[i] == m;
      if i > 0 {
        LexLeHead(CreatedKey(ranked[0]), CreatedKey(ranked[i]));
      }
    }
  }

  /** A movie is scheduled for deletion exactly when its key has several movies and it is not sorted first. */
  lemma ScheduledForDeletion(store: seq<Movie>, m: Movie)
    requires m in store
    ensures var k := KeyOf(m);
            m in ToRemove(Duplicates(GroupAll(store))) <==>
              |OfKey(store, k)| > 1 && m in Drop1(SortBy(OfKey(store, k), CreatedKey))
  {
    var k := KeyOf(m);
    var gs := GroupAll(store);
    var dups := Duplicates(gs);
    if m in ToRemove(dups) {
      var h :| h in dups && m in Deleted(h);
      GroupMovies(gs, h);
      SortMembers(h.movies, CreatedKey);
      assert m in OfKey(store, h.key);
      assert h.key == k;
    }
    if |OfKey(store, k)| > 1 && m in Drop1(SortBy(OfKey(store, k), CreatedKey)) {
      assert k in GroupKeys(gs);
      GroupFor(gs, k);
      var g :| g in gs && g.key == k && g.movies == MoviesFor(gs, k);
      assert g in dups && m in Deleted(g);
    }
  }

  /** Everything scheduled for deletion is in the store. */
  lemma ScheduledInStore(store: seq<Movie>, x: Movie)
    requires x in ToRemove(Duplicates(GroupAll(store)))
    ensures x in store
  {
    var gs := GroupAll(store);
    var h :| h in Duplicates(gs) && x in Deleted(h);
    GroupMovies(gs, h);
    SortMembers(h.movies, CreatedKey);
  }

  /** With distinct ids, deleting by id deletes exactly the scheduled movies. */
  lemma DeletedById(store: seq<Movie>, m: Movie)
    requires DistinctBy(store, IdOf) && m in store
    ensures var rm := ToRemove(Duplicates(GroupAll(store)));
            m.id in Ids(rm) <==> m in rm
  {
    var rm := ToRemove(Duplicates(GroupAll(store)));
    if m.id in Ids(rm) {
      var x :| x in rm && x.id == m.id;
      ScheduledInStore(store, x);
      SameId(store, x, m);
    }
  }

  /** In a sequence of distinct ids, everything but the head is after the head. */
  lemma DropFirst(s: seq<Movie>, m: Movie)
    requires DistinctBy(s, IdOf) && m in s
    ensures m in Drop1(s) <==> m != s[0]
  {
    var i :| 0 <= i < |s| && s[i] == m;
    if i > 0 {
      assert Drop1(s)[i - 1] == m;
    } else {
      forall j | 0 <= j < |s| - 1 ensures Drop1(s)[j] != m {
        assert IdOf(s[0]) != IdOf(s[j + 1]);
      }
    }
  }

  /**
    Which movies remain: a movie stays exactly when its key is unique, or
    it is its key's survivor.
  */
  lemma Remains(store: seq<Movie>, m: Movie)
    requires DistinctBy(store, IdOf) && m in store
    ensures OfKey(store, KeyOf(m)) != []
    ensures m in RemoveDuplicates(store).remaining <==>
              |OfKey(store, KeyOf(m))| <= 1 || m == Survivor(store, KeyOf(m))
  {
    var k := KeyOf(m);
    var group := OfKey(store, k);
    assert m in group;
    var gs := GroupAll(store);
    var dups := Duplicates(gs);
    if dups == [] {
      assert k in GroupKeys(gs);
      GroupFor(gs, k);
    } else {
      var ranked := SortBy(group, CreatedKey);
      SortMembers(group, CreatedKey);
      OfKeyDistinct(store, k);
      SortDistinct(group, CreatedKey, IdOf);
      DropFirst(ranked, m);
      ScheduledForDeletion(store, m);
      DeletedById(store, m);
    }
  }

  /** After the clean-up at most one movie per key remains. */
  lemma OnePerKey(store: seq<Movie>)
    requires DistinctBy(store, IdOf)
    ensures var rem := RemoveDuplicates(store).remaining;
            forall x, y :: x in rem && y in rem && KeyOf(x) == KeyOf(y) ==> x == y
  {
    var rem := RemoveDuplicates(store).remaining;
    forall x, y | x in rem && y in rem && KeyOf(x) == KeyOf(y) ensures x == y {
      SameKeyRemaining(store, x, y);
    }
  }

  lemma SameKeyRemaining(store: seq<Movie>, x: Movie, y: Movie)
    requires DistinctBy(store, IdOf)
    requires x in RemoveDuplicates(store).remaining && y in RemoveDuplicates(store).remaining
    requires KeyOf(x) == KeyOf(y)
    ensures x == y
  {
    RemainsInStore(store, x);
    RemainsInStore(store, y);
    Remains(store, x);
    Remains(store, y);
    KeptSameKey(store, x, y);
  }

  /** Two movies of one key that each qualify to stay are the same movie. */
  lemma KeptSameKey(store: seq<Movie>, x: Movie, y: Movie)
    requires x in store && y in store && KeyOf(x) == KeyOf(y)
    requires |OfKey(store, KeyOf(x))| <= 1 || x == Survivor(store, KeyOf(x))
    requires |OfKey(store, KeyOf(y))| <= 1 || y == Survivor(store, KeyOf(y))
    ensures x == y
  {
    var group := OfKey(store, KeyOf(x));
    if |group| <= 1 {
      assert x in group && y in group;
      SingleMember(group, x, y);
    }
  }

  lemma SingleMember<T>(s: seq<T>, x: T, y: T)
    requires |s| <= 1 && x in s && y in s
    ensures x == y
  {
  }

  lemma RemainsInStore(store: seq<Movie>, x: Movie)
    requires x in RemoveDuplicates(store).remaining
    ensures x in store
  {
  }

  /** The clean-up never removes the last movie of a key. */
  lemma KeysKept(store: seq<Movie>)
    requires DistinctBy(store, IdOf)
    ensures KeySet(RemoveDuplicates(store).remaining) == KeySet(store)
  {
    var rem := RemoveDuplicates(store).remaining;
    forall k | k in KeySet(store) ensures k in KeySet(rem) {
      var m :| m in store && KeyOf(m) == k;
      Remains(store, m);
      SurvivorIsEarliest(store, k);
      var s := Survivor(store, k);
      Remains(store, s);
      if |OfKey(store, k)| <= 1 {
        assert m in rem;
      } else {
        assert s in rem;
      }
    }
  }

  /** In every duplicate group the earliest-created movie is the one kept. */
  lemma EarliestSurvives(store: seq<Movie>, k: Key)
    requires DistinctBy(store, IdOf) && |OfKey(store, k)| > 1
    ensures var s := Survivor(store, k);
            && s in RemoveDuplicates(store).remaining
            && KeyOf(s) == k
            && forall m :: m in store && KeyOf(m) == k ==> s.createdAt <= m.createdAt
  {
    SurvivorIsEarliest(store, k);
    Remains(store, Survivor(store, k));
  }
}
