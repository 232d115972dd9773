/**
  The pure part of the TMDB crawler: choosing an age rating from a movie's
  release dates, and turning the TMDB detail responses into a Movie
  document.
*/
module CrawlMovies {
  import opened Wrappers

  /** The index of the first element satisfying `p`. */
  function FindFirst<T>(s: seq<T>, p: T -> bool): (r: Option<nat>)
    ensures r.Some? ==> r.value < |s| && p(s[r.value]) && forall j :: 0 <= j < r.value ==> !p(s[j])
    ensures r.None? ==> forall j :: 0 <= j < |s| ==> !p(s[j])
  {
    if s == [] then None
    else if p(s[0]) then Some(0)
    else match FindFirst(s[1..], p)
      case None => None
      case Some(i) => Some(i + 1)
  }

  /** An index that satisfies `p` after a run that does not is what `FindFirst` returns. */
  lemma {:induction false} FindFirstIs<T>(s: seq<T>, p: T -> bool, i: nat)
    requires i < |s| && p(s[i]) && forall j :: 0 <= j < i ==> !p(s[j])
    ensures FindFirst(s, p) == Some(i)
  {
    if i > 0 {
      FindFirstIs(s[1..], p, i - 1);
    }
  }

  // ---------------------------------------------------------------------------
  // Age rating

  /** One entry of a country's `release_dates`; a missing certification reads as "". */
  datatype ReleaseDate = ReleaseDate(certification: string)

  /** One element of `releaseDates.results`. */
  datatype CountryRelease = CountryRelease(country: string, releaseDates: seq<ReleaseDate>)

  /** `results[i]` is the first release of country `code`. */
  predicate FirstOf(results: seq<CountryRelease>, code: string, i: int) {
    0 <= i < |results| && results[i].country == code && forall j :: 0 <= j < i ==> results[j].country != code
  }

  /**
    The certification the crawler reads for `code`: the first entry of the
    first country with that code, when there is one and it is non-empty.
  */
  function Certification(results: seq<CountryRelease>, code: string): (r: Option<string>)
    ensures r.Some? ==> r.value != ""
    ensures r.Some? ==> exists i :: FirstOf(results, code, i) && results[i].releaseDates != []
                                  && results[i].releaseDates[0].certification == r.value
    ensures r.None? ==> forall i :: FirstOf(results, code, i) ==>
                          results[i].releaseDates == [] || results[i].releaseDates[0].certification == ""
  {
    match FindFirst(results, (c: CountryRelease) => c.country == code)
    case None => None
    case Some(i) =>
      if results[i].releaseDates != [] && results[i].releaseDates[0].certification != "" then
        Some(results[i].releaseDates[0].certification)
      else None
  }

  /** The Korean switch: labels and numeric codes to ALL / 12 / 15 / 18, anything else passed through. */
  function KoreanRating(c: string): string {
    if c == "전체관람가" || c == "ALL" then "ALL"
    else if c == "12세이상관람가" || c == "12" then "12"
    else if c == "15세이상관람가" || c == "15" then "15"
    else if c == "청소년관람불가" || c == "18" then "18"
    else c
  }

  /** The US switch: MPA ratings to the Korean scale, anything else "NR". */
  function UsRating(c: string): string {
    if c == "G" || c == "PG" then "ALL"
    else if c == "PG-13" then "12"
    else if c == "R" || c == "NC-17" then "18"
    else "NR"
  }

  /** `getAgeRating`: Korea decides when it can, then the US, then "NR". */
  function GetAgeRating(results: seq<CountryRelease>): (r: string)
    ensures Certification(results, "KR").None? ==> r in {"ALL", "12", "18", "NR"}
    ensures Certification(results, "KR").None? && Certification(results, "US").None? ==> r == "NR"
    ensures r == "15" ==> Certification(results, "KR").Some?
    ensures r != "NR" ==> Certification(results, "KR").Some? || Certification(results, "US").Some?
  {
    match Certification(results, "KR")
    case Some(c) => KoreanRating(c)
    case None =>
      match Certification(results, "US")
      case Some(c) => UsRating(c)
      case None => "NR"
  }

  /** The rating tables, written as lookups. */
  const KoreanTable: map<string, string> := map[
    "전체관람가" := "ALL", "ALL" := "ALL",
    "12세이상관람가" := "12", "12" := "12",
    "15세이상관람가" := "15", "15" := "15",
    "청소년관람불가" := "18", "18" := "18"]

  const UsTable: map<string, string> := map[
    "G" := "ALL", "PG" := "ALL", "PG-13" := "12", "R" := "18", "NC-17" := "18"]

  /**
    The rating agrees with the tables: a usable Korean certification is
    looked up (unknown ones pass through), otherwise a usable US one is
    looked up (unknown ones become "NR").
  */
  lemma AgeRatingTables(results: seq<CountryRelease>)
    ensures var kr := Certification(results, "KR");
            var us := Certification(results, "US");
            GetAgeRating(results) ==
              if kr.Some? then (if kr.value in KoreanTable then KoreanTable[kr.value] else kr.value)
              else if us.Some? then (if us.value in UsTable then UsTable[us.value] else "NR")
              else "NR"
  {
    match Certification(results, "KR")
    case Some(c) => KoreanTableAgrees(c);
    case None =>
      match Certification(results, "US")
      case Some(c) => UsTableAgrees(c);
      case None =>
  }

  lemma KoreanTableAgrees(c: string)
    ensures KoreanRating(c) == if c in KoreanTable then KoreanTable[c] else c
  {
  }

  lemma UsTableAgrees(c: string)
    ensures UsRating(c) == if c in UsTable then UsTable[c] else "NR"
  {
  }

  /** A release list cut down to at most its first entry. */
  function FirstOnly(c: CountryRelease): CountryRelease {
    if |c.releaseDates| <= 1 then c else CountryRelease(c.country, c.releaseDates[..1])
  }

  function FirstOnlyAll(results: seq<CountryRelease>): (r: seq<CountryRelease>)
    ensures |r| == |results|
    ensures forall i :: 0 <= i < |r| ==> r[i] == FirstOnly(results[i])
  {
    if results == [] then [] else [FirstOnly(results[0])] + FirstOnlyAll(results[1..])
  }

  lemma CertificationFirstOnly(results: seq<CountryRelease>, code: string)
    ensures Certification(FirstOnlyAll(results), code) == Certification(results, code)
  {
    var cut := FirstOnlyAll(results);
    var p := (c: CountryRelease) => c.country == code;
    assert forall i :: 0 <= i < |results| ==> cut[i].country == results[i].country;
    match FindFirst(results, p)
    case None =>
    case Some(i) =>
      FindFirstIs(cut, p, i);
  }

  /** Only the first entry of each country's release list can matter. */
  lemma AgeRatingReadsFirstEntry(results: seq<CountryRelease>)
    ensures GetAgeRating(FirstOnlyAll(results)) == GetAgeRating(results)
  {
    CertificationFirstOnly(results, "KR");
    CertificationFirstOnly(results, "US");
  }

  /** Once both countries appear, further countries cannot change the rating. */
  lemma AgeRatingFirstCountry(results: seq<CountryRelease>, more: seq<CountryRelease>)
    requires exists i :: 0 <= i < |results| && results[i].country == "KR"
    requires exists i :: 0 <= i < |results| && results[i].country == "US"
    ensures GetAgeRating(results + more) == GetAgeRating(results)
  {
    FirstCountryStays(results, more, "KR");
    FirstCountryStays(results, more, "US");
  }

  lemma FirstCountryStays(results: seq<CountryRelease>, more: seq<CountryRelease>, code: string)
    requires exists i :: 0 <= i < |results| && results[i].country == code
    ensures Certification(results + more, code) == Certification(results, code)
  {
    var p := (c: CountryRelease) => c.country == code;
    var all := results + more;
    var i :| 0 <= i < |results| && results[i].country == code;
    assert p(results[i]);
    var f := FindFirst(results, p);
    assert all[f.value] == results[f.value];
    FindFirstIs(all, p, f.value);
  }

  // ---------------------------------------------------------------------------
  // Movie document

  const ImageBase := "https://image.tmdb.org/t/p/w500"
  const WatchBase := "https://www.youtube.com/watch?v="
  const NoRole := "배역 정보 없음"
  const NoDirector := "감독 정보 없음"
  const CastLimit := 10

  /** `path ? base + path : null`. */
  function ImageUrl(path: string): (r: Option<string>)
    ensures r.None? <==> path == ""
    ensures r.Some? ==> |r.value| == |ImageBase| + |path| && ImageBase <= r.value && r.value[|ImageBase|..] == path
  {
    if path == "" then None else Some(ImageBase + path)
  }

  datatype Genre = Genre(id: int, name: string)
  /** `type` is a keyword here, so the video's type is `kind`. */
  datatype Video = Video(key: string, kind: string, site: string)
  datatype CastCredit = CastCredit(name: string, character: string, profilePath: string)
  datatype CrewCredit = CrewCredit(name: string, job: string, profilePath: string)

  /** The fields of the TMDB movie response the transform reads; `popularity` is not modelled. */
  datatype TmdbMovie = TmdbMovie(
    title: string,
    genres: seq<Genre>,
    runtime: Option<int>,
    releaseDate: string,
    overview: string,
    posterPath: string)

  /** The four responses `getMovieDetails` bundles. */
  datatype Details = Details(
    movie: TmdbMovie,
    cast: seq<CastCredit>,
    crew: seq<CrewCredit>,
    videos: seq<Video>,
    releaseDates: seq<CountryRelease>)

  datatype CastEntry = CastEntry(name: string, role: string, profileImage: Option<string>)
  datatype Director = Director(name: string, profileImage: Option<string>)

  /** The document `transformMovieData` returns; `audience` is not modelled. */
  datatype MovieDoc = MovieDoc(
    title: string,
    categories: seq<string>,
    runningTime: int,
    releaseDate: string,
    ratingTotal: int,
    reviewCount: int,
    trailerUrl: Option<string>,
    description: string,
    cast: seq<CastEntry>,
    director: Director,
    posterUrl: Option<string>,
    ageRating: string,
    isAdultContent: bool)

  function CastEntries(cs: seq<CastCredit>): (r: seq<CastEntry>)
    ensures |r| == |cs|
    ensures forall i :: 0 <= i < |r| ==>
              && r[i].name == cs[i].name
              && r[i].role == (if cs[i].character != "" then cs[i].character else NoRole)
              && r[i].profileImage == ImageUrl(cs[i].profilePath)
  {
    if cs == [] then []
    else
      var c := cs[0];
      [CastEntry(c.name, if c.character != "" then c.character else NoRole, ImageUrl(c.profilePath))]
      + CastEntries(cs[1..])
  }

  function GenreNames(gs: seq<Genre>): (r: seq<string>)
    ensures |r| == |gs| && forall i :: 0 <= i < |r| ==> r[i] == gs[i].name
  {
    if gs == [] then [] else [gs[0].name] + GenreNames(gs[1..])
  }

  predicate IsDirector(p: CrewCredit) {
    p.job == "Director"
  }

  predicate IsTrailer(v: Video) {
    v.kind == "Trailer" && v.site == "YouTube"
  }

  function DirectorOf(crew: seq<CrewCredit>): (r: Director)
    ensures (forall i :: 0 <= i < |crew| ==> !IsDirector(crew[i])) ==> r == Director(NoDirector, None)
    ensures (exists i :: 0 <= i < |crew| && IsDirector(crew[i])) ==>
              exists i :: 0 <= i < |crew| && IsDirector(crew[i]) && (forall j :: 0 <= j < i ==> !IsDirector(crew[j]))
                       && r == Director(crew[i].name, ImageUrl(crew[i].profilePath))
  {
    match FindFirst(crew, IsDirector)
    case None => Director(NoDirector, None)
    case Some(i) => Director(crew[i].name, ImageUrl(crew[i].profilePath))
  }

  function TrailerOf(videos: seq<Video>): (r: Option<string>)
    ensures r.None? <==> forall i :: 0 <= i < |videos| ==> !IsTrailer(videos[i])
    ensures r.Some? ==> exists i :: 0 <= i < |videos| && IsTrailer(videos[i]) && (forall j :: 0 <= j < i ==> !IsTrailer(videos[j]))
                                  && r.value == WatchBase + videos[i].key
  {
    match FindFirst(videos, IsTrailer)
    case None => None
    case Some(i) => Some(WatchBase + videos[i].key)
  }

  /** `transformMovieData`. */
  function TransformMovie(d: Details): (r: MovieDoc)
    ensures r.title == d.movie.title && r.description == d.movie.overview && r.releaseDate == d.movie.releaseDate
    ensures |r.categories| == |d.movie.genres| && forall i :: 0 <= i < |r.categories| ==> r.categories[i] == d.movie.genres[i].name
    ensures r.runningTime == (if d.movie.runtime.Some? then d.movie.runtime.value else 0)
    ensures r.ratingTotal == 0 && r.reviewCount == 0
    ensures |r.cast| == (if |d.cast| < CastLimit then |d.cast| else CastLimit)
    ensures forall i :: 0 <= i < |r.cast| ==>
              && r.cast[i].name == d.cast[i].name
              && r.cast[i].role == (if d.cast[i].character != "" then d.cast[i].character else NoRole)
              && r.cast[i].profileImage == ImageUrl(d.cast[i].profilePath)
    ensures r.posterUrl == ImageUrl(d.movie.posterPath)
    ensures r.posterUrl.None? <==> d.movie.posterPath == ""
    ensures r.director == DirectorOf(d.crew) && r.trailerUrl == TrailerOf(d.videos)
    ensures (forall i :: 0 <= i < |d.crew| ==> !IsDirector(d.crew[i])) ==> r.director == Director(NoDirector, None)
    ensures r.trailerUrl.None? <==> forall i :: 0 <= i < |d.videos| ==> !IsTrailer(d.videos[i])
    ensures r.isAdultContent <==> r.ageRating == "18"
    ensures r.ageRating == GetAgeRating(d.releaseDates)
  {
    var n := if |d.cast| < CastLimit then |d.cast| else CastLimit;
    var rating := GetAgeRating(d.releaseDates);
    MovieDoc(
      d.movie.title,
      GenreNames(d.movie.genres),
      d.movie.runtime.GetOr(0),
      d.movie.releaseDate,
      0,
      0,
      TrailerOf(d.videos),
      d.movie.overview,
      CastEntries(d.cast[..n]),
      DirectorOf(d.crew),
      ImageUrl(d.movie.posterPath),
      rating,
      rating == "18")
  }

  /** A movie is marked adult exactly when Korea says 18, or, failing Korea, the US says R or NC-17. */
  lemma AdultContentSource(d: Details)
    ensures var kr := Certification(d.releaseDates, "KR");
            var us := Certification(d.releaseDates, "US");
            TransformMovie(d).isAdultContent <==>
              if kr.Some? then kr.value in {"청소년관람불가", "18"}
              else us.Some? && us.value in {"R", "NC-17"}
  {
    match Certification(d.releaseDates, "KR")
    case Some(c) => KoreanAdult(c);
    case None =>
      match Certification(d.releaseDates, "US")
      case Some(c) => UsAdult(c);
      case None =>
  }

  /** Only the two adult labels give the Korean rating 18. */
  lemma KoreanAdult(c: string)
    ensures KoreanRating(c) == "18" <==> c == "청소년관람불가" || c == "18"
  {
  }

  /** Only R and NC-17 give the US rating 18. */
  lemma UsAdult(c: string)
    ensures UsRating(c) == "18" <==> c == "R" || c == "NC-17"
  {
  }

  /** Credits past the tenth never reach the document. */
  lemma CastIgnoresLaterCredits(d: Details, extra: seq<CastCredit>)
    requires |d.cast| >= CastLimit
    ensures TransformMovie(d.(cast := d.cast + extra)).cast == TransformMovie(d).cast
  {
    var d2 := d.(cast := d.cast + extra);
    assert d2.cast[..CastLimit] == d.cast[..CastLimit];
  }

  /** The director's name and picture come from the first crew member with job Director, or the placeholder. */
  lemma DirectorChoice(d: Details, i: nat)
    requires i < |d.crew| && IsDirector(d.crew[i])
    requires forall j :: 0 <= j < i ==> !IsDirector(d.crew[j])
    ensures TransformMovie(d).director == Director(d.crew[i].name, ImageUrl(d.crew[i].profilePath))
  {
    FindFirstIs(d.crew, IsDirector, i);
  }
}
