/**
  The rating recount: every movie's `rating_total` becomes the sum of its
  reviews' ratings and `review_count` their number. The average is only
  logged, never stored.
*/
module UpdateRatings {

  /** The fields of a review the recount reads: `movie.movie_id` and `rating`. */
  datatype Review = Review(movieId: int, rating: int)

  /** The fields of a movie the recount reads or writes. */
  datatype Movie = Movie(id: int, title: string, ratingTotal: int, reviewCount: int)

  /** `Review.find({ "movie.movie_id": movie._id })`: the movie's reviews in collection order. */
  function ReviewsOf(reviews: seq<Review>, id: int): (r: seq<Review>)
    ensures |r| <= |reviews|
    ensures forall x :: x in r <==> x in reviews && x.movieId == id
  {
    if reviews == [] then []
    else (if reviews[0].movieId == id then [reviews[0]] else []) + ReviewsOf(reviews[1..], id)
  }

  /** `reviews.reduce((sum, review) => sum + review.rating, acc)`: a left fold. */
  function Reduce(acc: int, rs: seq<Review>): int
    decreases |rs|
  {
    if rs == [] then acc else Reduce(acc + rs[0].rating, rs[1..])
  }

  /** The sum of the ratings, added up from the last review backwards. */
  function Total(rs: seq<Review>): int {
    if rs == [] then 0 else Total(rs[..|rs| - 1]) + rs[|rs| - 1].rating
  }

  lemma {:induction false} TotalCons(x: Review, rs: seq<Review>)
    ensures Total([x] + rs) == x.rating + Total(rs)
    decreases |rs|
  {
    if rs != [] {
      var front := rs[..|rs| - 1];
      assert ([x] + rs)[..|rs|] == [x] + front;
      TotalCons(x, front);
    }
  }

  /** The fold with starting value `acc` adds `acc` to the sum. */
  lemma {:induction false} ReduceIsTotal(acc: int, rs: seq<Review>)
    ensures Reduce(acc, rs) == acc + Total(rs)
    decreases |rs|
  {
    if rs != [] {
      ReduceIsTotal(acc + rs[0].rating, rs[1..]);
      assert rs == [rs[0]] + rs[1..];
      TotalCons(rs[0], rs[1..]);
    }
  }

  /**
    One iteration of the loop: no reviews gives total and count zero,
    otherwise the sum (not the average) and the number of reviews. Nothing
    else about the movie changes.
  */
  function Recount(m: Movie, reviews: seq<Review>): (r: Movie)
    ensures r.id == m.id && r.title == m.title
    ensures r.reviewCount == |ReviewsOf(reviews, m.id)|
    ensures r.ratingTotal == Total(ReviewsOf(reviews, m.id))
    ensures r.reviewCount == 0 ==> r.ratingTotal == 0
  {
    var rs := ReviewsOf(reviews, m.id);
    if |rs| == 0 then
      m.(ratingTotal := 0, reviewCount := 0)
    else
      ReduceIsTotal(0, rs);
      m.(ratingTotal := Reduce(0, rs), reviewCount := |rs|)
  }

  /** `updateAllMovieRatings`: every movie recounted, in order. */
  method UpdateAllMovieRatings(movies: seq<Movie>, reviews: seq<Review>) returns (updated: seq<Movie>)
    ensures |updated| == |movies|
    ensures forall i :: 0 <= i < |movies| ==>
              && updated[i].id == movies[i].id && updated[i].title == movies[i].title
              && updated[i].reviewCount == |ReviewsOf(reviews, movies[i].id)|
              && updated[i].ratingTotal == Total(ReviewsOf(reviews, movies[i].id))
  {
    updated := [];
    var i := 0;
    while i < |movies|
      invariant i <= |movies| && |updated| == i
      invariant forall j :: 0 <= j < i ==> updated[j] == Recount(movies[j], reviews)
    {
      updated := updated + [Recount(movies[i], reviews)];
      i := i + 1;
    }
  }

  /** Reviews of other movies have no effect on a movie's totals. */
  lemma {:induction false} ReviewsOfOthers(reviews: seq<Review>, others: seq<Review>, id: int)
    requires forall x :: x in others ==> x.movieId != id
    ensures ReviewsOf(reviews + others, id) == ReviewsOf(reviews, id)
    ensures ReviewsOf(others + reviews, id) == ReviewsOf(reviews, id)
  {
    ReviewsOfAppend(reviews, others, id);
    ReviewsOfAppend(others, reviews, id);
    NoneOf(others, id);
  }

  lemma {:induction false} NoneOf(rs: seq<Review>, id: int)
    requires forall x :: x in rs ==> x.movieId != id
    ensures ReviewsOf(rs, id) == []
  {
    if rs != [] {
      assert rs[0] in rs;
      NoneOf(rs[1..], id);
    }
  }

  /** Selecting a movie's reviews commutes with concatenation. */
  lemma {:induction false} ReviewsOfAppend(a: seq<Review>, b: seq<Review>, id: int)
    ensures ReviewsOf(a + b, id) == ReviewsOf(a, id) + ReviewsOf(b, id)
  {
    if a != [] {
      var ab := a + b;
      assert ab[0] == a[0] && ab[1..] == a[1..] + b;
      ReviewsOfAppend(a[1..], b, id);
      var head := if a[0].movieId == id then [a[0]] else [];
      assert ReviewsOf(ab, id) == head + ReviewsOf(a[1..] + b, id);
      assert ReviewsOf(a, id) == head + ReviewsOf(a[1..], id);
    } else {
      assert a + b == b;
    }
  }

  lemma {:induction false} TotalAppend(a: seq<Review>, b: seq<Review>)
    ensures Total(a + b) == Total(a) + Total(b)
    decreases |a|
  {
    if a != [] {
      TotalAppend(a[1..], b);
      assert a + b == [a[0]] + (a[1..] + b);
      assert a == [a[0]] + a[1..];
      TotalCons(a[0], a[1..] + b);
      TotalCons(a[0], a[1..]);
    } else {
      assert a + b == b;
    }
  }

  /** Recounting over two batches of reviews adds their totals and counts. */
  lemma RecountAdditive(m: Movie, a: seq<Review>, b: seq<Review>)
    ensures Recount(m, a + b).ratingTotal == Recount(m, a).ratingTotal + Recount(m, b).ratingTotal
    ensures Recount(m, a + b).reviewCount == Recount(m, a).reviewCount + Recount(m, b).reviewCount
  {
    ReviewsOfAppend(a, b, m.id);
    TotalAppend(ReviewsOf(a, m.id), ReviewsOf(b, m.id));
  }

  /** The previous totals are ignored, so recounting twice is recounting once. */
  lemma RecountIgnoresOldTotals(m: Movie, reviews: seq<Review>, total: int, count: int)
    ensures Recount(m.(ratingTotal := total, reviewCount := count), reviews) == Recount(m, reviews)
    ensures Recount(Recount(m, reviews), reviews) == Recount(m, reviews)
  {
  }

  /** With every rating between `lo` and `hi`, the total lies between `count * lo` and `count * hi`. */
  lemma {:induction false} TotalBounds(rs: seq<Review>, lo: int, hi: int)
    requires forall x :: x in rs ==> lo <= x.rating <= hi
    ensures |rs| * lo <= Total(rs) <= |rs| * hi
  {
    if rs != [] {
      var front := rs[..|rs| - 1];
      var n := |front|;
      TotalBounds(front, lo, hi);
      assert rs[|rs| - 1] in rs;
      assert (n + 1) * lo == n * lo + lo && (n + 1) * hi == n * hi + hi;
    }
  }

  /** So the logged average of a movie with reviews stays within the rating scale. */
  lemma AverageInRange(m: Movie, reviews: seq<Review>, lo: int, hi: int)
    requires forall x :: x in reviews ==> lo <= x.rating <= hi
    ensures var r := Recount(m, reviews);
            r.reviewCount * lo <= r.ratingTotal <= r.reviewCount * hi
  {
    TotalBounds(ReviewsOf(reviews, m.id), lo, hi);
  }
}
