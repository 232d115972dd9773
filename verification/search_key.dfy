/**
  The SearchKey collection: the record shape and the capped prefix query
  the autocomplete issues against it. The store is a sequence of records in
  natural order.
*/
module SearchKeyStore {
  import opened Wrappers
  import opened KorNorm

  type MovieId = int

  /**
    One SearchKey document. A field the document lacks reads as "", which
    is how every consumer treats it (`d.key_type || 'unknown'`,
    `item.key_jamo_full || ...`, `(c.key_initials || '')`). Of the data
    fields the schema declares display, norm, initials and movieIds; it also
    sets `timestamps: true`, so every stored document carries `createdAt`
    and `updatedAt`, which are not modelled. `keyType` and `jamoFull` are
    read by the service but never written by the index build.
  */
  datatype SearchKey = SearchKey(
    display: string,
    keyType: string,
    norm: string,
    jamoFull: string,
    initials: string,
    movieIds: seq<MovieId>)

  /** The indexed text fields a prefix query can target. */
  datatype Field = NormField | JamoField | InitialsField

  function FieldOf(k: SearchKey, f: Field): string {
    match f
    case NormField => k.norm
    case JamoField => k.jamoFull
    case InitialsField => k.initials
  }

  /** The first `cap` records, in store order, whose field `f` starts with `prefix`. */
  function FirstMatches(store: seq<SearchKey>, f: Field, prefix: string, cap: nat): (r: seq<SearchKey>)
    ensures |r| <= cap && |r| <= |store|
    ensures forall k :: k in r ==> k in store && prefix <= FieldOf(k, f)
    ensures |r| < cap ==> forall k :: k in store && prefix <= FieldOf(k, f) ==> k in r
  {
    if store == [] || cap == 0 then []
    else if prefix <= FieldOf(store[0], f) then
      [store[0]] + FirstMatches(store[1..], f, prefix, cap - 1)
    else
      FirstMatches(store[1..], f, prefix, cap)
  }

  /**
    `SearchKey.find({ [f]: new RegExp('^' + pattern) }).limit(cap)`, for a
    pattern that is a literal (every metacharacter escaped).
  */
  function FindByPrefix(store: seq<SearchKey>, f: Field, pattern: string, cap: nat): (r: seq<SearchKey>)
    requires RegexLiteral(pattern).Some?
    ensures |r| <= cap
    ensures forall k :: k in r ==> k in store && RegexLiteral(pattern).value <= FieldOf(k, f)
  {
    FirstMatches(store, f, RegexLiteral(pattern).value, cap)
  }

  /**
    A query built from an escaped projection returns at most `cap` records,
    each of whose field starts with the projection, and misses none when
    fewer than `cap` come back.
  */
  lemma FindEscaped(store: seq<SearchKey>, f: Field, q: string, cap: nat)
    ensures RegexLiteral(EscapeRegex(q)).Some?
    ensures var r := FindByPrefix(store, f, EscapeRegex(q), cap);
            && |r| <= cap
            && (forall k :: k in r ==> k in store && q <= FieldOf(k, f))
            && (|r| < cap ==> forall k :: k in store && q <= FieldOf(k, f) ==> k in r)
  {
    EscapeIsLiteral(q);
  }
}
