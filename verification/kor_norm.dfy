/**
  The Korean/Latin search-text normaliser: the three comparison forms of a
  display string (folded text, full compatibility-jamo stream, initial
  consonants), the Hangul test used to gate the initials form, and the
  regular-expression escaping used to build "starts with" queries.
*/
module KorNorm {
  import opened Wrappers
  import opened Text

  /**
    The library calls the normaliser relies on and the model keeps abstract:
    `fold` is `normalize('NFKC')` followed by `toLowerCase()` (Unicode
    Standard Annex #15 plus case mapping), and `choseong` is es-hangul's
    `getChoseong`, with `None` standing for a thrown exception.
  */
  datatype Lib = Lib(fold: string -> string, choseong: string -> Option<string>) {

    /**
      Laws of NFKC plus lowercasing that the idempotence of `Norm` needs:
      the empty string folds to itself, folding twice is folding once, and
      squashing the whitespace of folded text leaves it folded.
    */
    ghost predicate FoldLaws() {
      && fold([]) == []
      && (forall s :: fold(fold(s)) == fold(s))
      && (forall t :: fold(t) == t ==> fold(Squash(t)) == Squash(t))
    }
  }

  /** JavaScript's `(s ?? '')` for an optional string argument. */
  function OrEmpty(s: Option<string>): string {
    s.GetOr([])
  }

  // ---------------------------------------------------------------------------
  // norm

  /** Search normalisation: fold, trim, and collapse whitespace runs to one ' '. */
  function Norm(lib: Lib, s: string): (r: string)
    ensures Squashed(r)
    ensures StripSpaces(r) == StripSpaces(lib.fold(s))
    ensures Words(r) == Words(lib.fold(s))
  {
    Squash(lib.fold(s))
  }

  /** The normalised text is the words of the folded text joined by single spaces. */
  lemma NormJoinsWords(lib: Lib, s: string)
    ensures Norm(lib, s) == Unwords(Words(lib.fold(s)))
  {
    SquashIsUnwords(lib.fold(s));
  }

  /** A missing or empty argument normalises to the empty string. */
  lemma NormOfNothing(lib: Lib, s: Option<string>)
    requires lib.fold([]) == []
    requires s == None || s == Some([])
    ensures Norm(lib, OrEmpty(s)) == []
  {
  }

  /** Normalising twice is normalising once. */
  lemma NormIdempotent(lib: Lib, s: string)
    requires lib.FoldLaws()
    ensures Norm(lib, Norm(lib, s)) == Norm(lib, s)
  {
    var t := lib.fold(s);
    assert lib.fold(t) == t;
    assert lib.fold(Squash(t)) == Squash(t);
    SquashIdempotent(t);
  }

  // ---------------------------------------------------------------------------
  // Hangul syllable decomposition (section 3.12 of the Unicode Standard)

  const SBase := 0xAC00
  const LBase := 0x1100
  const VBase := 0x1161
  const TBase := 0x11A7
  const LCount := 19
  const VCount := 21
  const TCount := 28
  const NCount := 588   // VCount * TCount
  const SCount := 11172 // LCount * NCount

  predicate IsSyllable(c: char) {
    SBase <= c as int < SBase + SCount
  }

  /** Leading consonant (choseong) jamo, U+1100..U+1112. */
  predicate IsLeadJamo(c: char) {
    LBase <= c as int < LBase + LCount
  }

  /** Vowel (jungseong) jamo, U+1161..U+1175. */
  predicate IsVowelJamo(c: char) {
    VBase <= c as int < VBase + VCount
  }

  /** Trailing consonant (jongseong) jamo, U+11A8..U+11C2. */
  predicate IsTailJamo(c: char) {
    TBase < c as int < TBase + TCount
  }

  /** A syllable's conjoining jamo: leading consonant, vowel, and a trailing consonant unless its index is 0. */
  function DecomposeSyllable(c: char): (r: string)
    requires IsSyllable(c)
    ensures |r| == 2 || |r| == 3
    ensures IsLeadJamo(r[0]) && IsVowelJamo(r[1])
    ensures |r| == 3 ==> IsTailJamo(r[2])
  {
    var s := c as int - SBase;
    var l := (LBase + s / NCount) as char;
    var v := (VBase + (s % NCount) / TCount) as char;
    var t := s % TCount;
    if t == 0 then [l, v] else [l, v, (TBase + t) as char]
  }

  /** Composition of conjoining jamo into a syllable, the inverse arithmetic. */
  function ComposeSyllable(l: char, v: char, t: Option<char>): int {
    var tIndex := match t case Some(tc) => tc as int - TBase case None => 0;
    SBase + ((l as int - LBase) * VCount + (v as int - VBase)) * TCount + tIndex
  }

  /** Decomposition loses nothing: composing the jamo gives the syllable back. */
  lemma ComposeDecompose(c: char)
    requires IsSyllable(c)
    ensures var d := DecomposeSyllable(c);
            ComposeSyllable(d[0], d[1], if |d| == 3 then Some(d[2]) else None) == c as int
  {
    var s := c as int - SBase;
    assert s == (s / NCount) * NCount + (s % NCount);
    assert s % NCount == ((s % NCount) / TCount) * TCount + s % TCount;
    assert (s % NCount) % TCount == s % TCount;
  }

  /** es-hangul `disassemble`: every syllable replaced by its conjoining jamo. */
  function Disassemble(s: string): (r: string)
    ensures |r| >= |s|
  {
    if s == [] then []
    else (if IsSyllable(s[0]) then DecomposeSyllable(s[0]) else [s[0]]) + Disassemble(s[1..])
  }

  // ---------------------------------------------------------------------------
  // Conjoining jamo to compatibility jamo, splitting compound letters

  /** Compatibility forms of the leading consonants U+1100..U+1112; tense consonants stay one unit. */
  const ChoTable: seq<string> := [
      "\U{3131}",          // U+1100
      "\U{3132}",          // U+1101
      "\U{3134}",          // U+1102
      "\U{3137}",          // U+1103
      "\U{3138}",          // U+1104
      "\U{3139}",          // U+1105
      "\U{3141}",          // U+1106
      "\U{3142}",          // U+1107
      "\U{3143}",          // U+1108
      "\U{3145}",          // U+1109
      "\U{3146}",          // U+110A
      "\U{3147}",          // U+110B
      "\U{3148}",          // U+110C
      "\U{3149}",          // U+110D
      "\U{314A}",          // U+110E
      "\U{314B}",          // U+110F
      "\U{314C}",          // U+1110
      "\U{314D}",          // U+1111
      "\U{314E}"           // U+1112
    ]

  /** Compatibility forms of the vowels U+1161..U+1175; compound vowels become two units. */
  const JungTable: seq<string> := [
      "\U{314F}",          // U+1161
      "\U{3150}",          // U+1162
      "\U{3151}",          // U+1163
      "\U{3152}",          // U+1164
      "\U{3153}",          // U+1165
      "\U{3154}",          // U+1166
      "\U{3155}",          // U+1167
      "\U{3156}",          // U+1168
      "\U{3157}",          // U+1169
      "\U{3157}\U{314F}",  // U+116A
      "\U{3157}\U{3150}",  // U+116B
      "\U{3157}\U{3163}",  // U+116C
      "\U{315B}",          // U+116D
      "\U{315C}",          // U+116E
      "\U{315C}\U{3153}",  // U+116F
      "\U{315C}\U{3154}",  // U+1170
      "\U{315C}\U{3163}",  // U+1171
      "\U{3160}",          // U+1172
      "\U{3161}",          // U+1173
      "\U{3161}\U{3163}",  // U+1174
      "\U{3163}"           // U+1175
    ]

  /** Compatibility forms of the trailing consonants U+11A8..U+11C2; compound finals become two units. */
  const JongTable: seq<string> := [
      "\U{3131}",          // U+11A8
      "\U{3132}",          // U+11A9
      "\U{3131}\U{3145}",  // U+11AA
      "\U{3134}",          // U+11AB
      "\U{3134}\U{3148}",  // U+11AC
      "\U{3134}\U{314E}",  // U+11AD
      "\U{3137}",          // U+11AE
      "\U{3139}",          // U+11AF
      "\U{3139}\U{3131}",  // U+11B0
      "\U{3139}\U{3141}",  // U+11B1
      "\U{3139}\U{3142}",  // U+11B2
      "\U{3139}\U{3145}",  // U+11B3
      "\U{3139}\U{314C}",  // U+11B4
      "\U{3139}\U{314D}",  // U+11B5
      "\U{3139}\U{314E}",  // U+11B6
      "\U{3141}",          // U+11B7
      "\U{3142}",          // U+11B8
      "\U{3142}\U{3145}",  // U+11B9
      "\U{3145}",          // U+11BA
      "\U{3146}",          // U+11BB
      "\U{3147}",          // U+11BC
      "\U{3148}",          // U+11BD
      "\U{314A}",          // U+11BE
      "\U{314B}",          // U+11BF
      "\U{314C}",          // U+11C0
      "\U{314D}",          // U+11C1
      "\U{314E}"           // U+11C2
    ]

  /** Compatibility jamo, U+3131..U+3163. */
  predicate IsCompatJamo(c: char) {
    0x3131 <= c as int <= 0x3163
  }

  predicate InTables(c: char) {
    IsLeadJamo(c) || IsVowelJamo(c) || IsTailJamo(c)
  }

  /** The units a single character of the disassembly is replaced by. */
  function JamoUnits(c: char): string {
    if IsLeadJamo(c) then ChoTable[c as int - LBase]
    else if IsVowelJamo(c) then JungTable[c as int - VBase]
    else if IsTailJamo(c) then JongTable[c as int - TBase - 1]
    else [c]
  }

  function MapJamo(d: string): string {
    if d == [] then [] else JamoUnits(d[0]) + MapJamo(d[1..])
  }

  /**
    The tail of `toJamoFull` once the normalised input is known: empty input
    gives empty output, a failed disassembly (`None`) gives the input back,
    and a successful one is mapped to compatibility jamo with all whitespace
    removed.
  */
  function JamoFromDisassembly(input: string, raw: Option<string>): (r: string)
    ensures input == [] ==> r == []
    ensures input != [] && raw == None ==> r == input
    ensures raw != None ==> NoSpace(r)
  {
    if input == [] then []
    else match raw
      case None => input
      case Some(d) => StripSpaces(MapJamo(d))
  }

  /** `toJamoFull`: normalise, disassemble, map to compatibility jamo, strip whitespace. */
  function ToJamoFull(lib: Lib, s: string): (r: string)
    ensures Norm(lib, s) == [] <==> r == []
    ensures NoSpace(r)
  {
    var input := Norm(lib, s);
    if input == [] then []
    else
      JamoNonEmpty(input);
      JamoFromDisassembly(input, Some(Disassemble(input)))
  }

  /** A string holding a non-whitespace character keeps one through disassembly and jamo mapping. */
  lemma JamoNonEmpty(input: string)
    requires input != [] && Trimmed(input)
    ensures StripSpaces(MapJamo(Disassemble(input))) != []
  {
    var d := Disassemble(input);
    var c := input[0];
    var head := if IsSyllable(c) then DecomposeSyllable(c) else [c];
    assert d == head + Disassemble(input[1..]);
    MapJamoAppend(head, Disassemble(input[1..]));
    var units := JamoUnits(head[0]);
    assert MapJamo(head) == units + MapJamo(head[1..]);
    TableUnitsAreCompat(head[0]);
    assert |units| >= 1 && !IsSpace(units[0]);
    StripSpacesNonEmpty(MapJamo(d), 0);
  }

  lemma MapJamoAppend(a: string, b: string)
    ensures MapJamo(a + b) == MapJamo(a) + MapJamo(b)
  {
    if a == [] {
      assert a + b == b;
    } else {
      assert (a + b)[0] == a[0];
      assert (a + b)[1..] == a[1..] + b;
      MapJamoAppend(a[1..], b);
    }
  }

  /** One or two compatibility jamo: what every table entry holds. */
  predicate CompatUnits(u: string) {
    1 <= |u| <= 2 && forall i :: 0 <= i < |u| ==> IsCompatJamo(u[i])
  }

  lemma ChoTableCompat(k: int)
    requires 0 <= k < |ChoTable|
    ensures CompatUnits(ChoTable[k])
  {
    assert k == 0 || k == 1 || k == 2 || k == 3 || k == 4 || k == 5 || k == 6 || k == 7 || k == 8 || k == 9
        || k == 10 || k == 11 || k == 12 || k == 13 || k == 14 || k == 15 || k == 16 || k == 17 || k == 18;
  }

  lemma JungTableCompat(k: int)
    requires 0 <= k < |JungTable|
    ensures CompatUnits(JungTable[k])
  {
    assert k == 0 || k == 1 || k == 2 || k == 3 || k == 4 || k == 5 || k == 6 || k == 7 || k == 8 || k == 9
        || k == 10 || k == 11 || k == 12 || k == 13 || k == 14 || k == 15 || k == 16 || k == 17 || k == 18
        || k == 19 || k == 20;
  }

  lemma JongTableCompat(k: int)
    requires 0 <= k < |JongTable|
    ensures CompatUnits(JongTable[k])
  {
    assert k == 0 || k == 1 || k == 2 || k == 3 || k == 4 || k == 5 || k == 6 || k == 7 || k == 8 || k == 9
        || k == 10 || k == 11 || k == 12 || k == 13 || k == 14 || k == 15 || k == 16 || k == 17 || k == 18
        || k == 19 || k == 20 || k == 21 || k == 22 || k == 23 || k == 24 || k == 25 || k == 26;
  }

  /** Every table entry is one or two compatibility jamo; characters outside the tables map to themselves. */
  lemma TableUnitsAreCompat(c: char)
    ensures InTables(c) ==> CompatUnits(JamoUnits(c))
    ensures !InTables(c) ==> JamoUnits(c) == [c]
  {
    if IsLeadJamo(c) {
      ChoTableCompat(c as int - LBase);
    } else if IsVowelJamo(c) {
      JungTableCompat(c as int - VBase);
    } else if IsTailJamo(c) {
      JongTableCompat(c as int - TBase - 1);
    }
  }

  const CompoundVowels: set<char> :=
    {'\U{116A}', '\U{116B}', '\U{116C}', '\U{116F}', '\U{1170}', '\U{1171}', '\U{1174}'}

  const CompoundFinals: set<char> :=
    {'\U{11AA}', '\U{11AC}', '\U{11AD}', '\U{11B0}', '\U{11B1}', '\U{11B2}', '\U{11B3}',
     '\U{11B4}', '\U{11B5}', '\U{11B6}', '\U{11B9}'}

  /** A vowel becomes two compatibility vowels exactly when it is a compound vowel, otherwise one. */
  lemma VowelSplit(c: char)
    requires IsVowelJamo(c)
    ensures |JamoUnits(c)| == (if c in CompoundVowels then 2 else 1)
  {
    var k := c as int - VBase;
    assert k == 0 || k == 1 || k == 2 || k == 3 || k == 4 || k == 5 || k == 6 || k == 7 || k == 8 || k == 9
        || k == 10 || k == 11 || k == 12 || k == 13 || k == 14 || k == 15 || k == 16 || k == 17 || k == 18
        || k == 19 || k == 20;
  }

  /** A trailing consonant becomes two consonants exactly when it is a compound final, otherwise one. */
  lemma FinalSplit(c: char)
    requires IsTailJamo(c)
    ensures |JamoUnits(c)| == (if c in CompoundFinals then 2 else 1)
  {
    var k := c as int - TBase - 1;
    assert k == 0 || k == 1 || k == 2 || k == 3 || k == 4 || k == 5 || k == 6 || k == 7 || k == 8 || k == 9
        || k == 10 || k == 11 || k == 12 || k == 13 || k == 14 || k == 15 || k == 16 || k == 17 || k == 18
        || k == 19 || k == 20 || k == 21 || k == 22 || k == 23 || k == 24 || k == 25 || k == 26;
  }

  /** Leading consonants, tense ones included, are never split. */
  lemma LeadSingle(c: char)
    requires IsLeadJamo(c)
    ensures |JamoUnits(c)| == 1
  {
    var k := c as int - LBase;
    assert k == 0 || k == 1 || k == 2 || k == 3 || k == 4 || k == 5 || k == 6 || k == 7 || k == 8 || k == 9
        || k == 10 || k == 11 || k == 12 || k == 13 || k == 14 || k == 15 || k == 16 || k == 17 || k == 18;
  }

  /** The tense consonants map to the single tense compatibility letters. */
  lemma TenseConsonants()
    ensures JamoUnits('\U{1101}') == JamoUnits('\U{11A9}') == "\U{3132}"
    ensures JamoUnits('\U{1104}') == "\U{3138}"
    ensures JamoUnits('\U{1108}') == "\U{3143}"
    ensures JamoUnits('\U{110A}') == JamoUnits('\U{11BB}') == "\U{3146}"
    ensures JamoUnits('\U{110D}') == "\U{3149}"
  {
  }

  /** Text with no conjoining jamo passes through the jamo mapping unchanged. */
  lemma {:induction false} MapJamoPassThrough(d: string)
    requires forall i :: 0 <= i < |d| ==> !InTables(d[i])
    ensures MapJamo(d) == d
  {
    if d != [] {
      TableUnitsAreCompat(d[0]);
      MapJamoPassThrough(d[1..]);
    }
  }

  /**
    A syllable's full jamo form is two to five compatibility jamo: its
    leading consonant, one or two vowel units, and zero to two final units.
  */
  lemma SyllableJamo(c: char)
    requires IsSyllable(c)
    ensures var j := MapJamo(DecomposeSyllable(c));
            2 <= |j| <= 5 && forall i :: 0 <= i < |j| ==> IsCompatJamo(j[i])
  {
    var d := DecomposeSyllable(c);
    assert d == [d[0]] + [d[1]] + d[2..];
    MapJamoAppend([d[0]] + [d[1]], d[2..]);
    MapJamoAppend([d[0]], [d[1]]);
    TableUnitsAreCompat(d[0]);
    TableUnitsAreCompat(d[1]);
    LeadSingle(d[0]);
    if |d| == 3 {
      TableUnitsAreCompat(d[2]);
      assert MapJamo(d[2..]) == JamoUnits(d[2]);
    } else {
      assert MapJamo(d[2..]) == [];
    }
  }

  // ---------------------------------------------------------------------------
  // toInitials, isKoreanQuery, escapeRegex

  /**
    `toInitials`: the library's leading-consonant string with whitespace
    removed, or the raw input with whitespace removed when the library
    throws. The input is not normalised first.
  */
  function ToInitials(lib: Lib, s: string): (r: string)
    ensures s == [] ==> r == []
    ensures NoSpace(r)
    ensures s != [] && lib.choseong(s) == None ==> r == StripSpaces(s)
  {
    if s == [] then []
    else match lib.choseong(s)
      case Some(initials) => StripSpaces(initials)
      case None => StripSpaces(s)
  }

  /** The three Hangul ranges: jamo, compatibility jamo, and syllables (to U+D7AF). */
  predicate IsHangul(c: char) {
    (0x1100 <= c as int <= 0x11FF) || (0x3130 <= c as int <= 0x318F) || (0xAC00 <= c as int <= 0xD7AF)
  }

  /** `isKoreanQuery`: some character lies in a Hangul range. */
  function IsKoreanQuery(s: string): (r: bool)
    ensures r <==> exists i :: 0 <= i < |s| && IsHangul(s[i])
  {
    if s == [] then false
    else if IsHangul(s[0]) then true
    else
      assert forall i :: 1 <= i < |s| ==> s[i] == s[1..][i - 1];
      IsKoreanQuery(s[1..])
  }

  /** The characters `escapeRegex` escapes: . * + ? ^ $ { } ( ) | [ ] \ */
  predicate IsRegexMeta(c: char) {
    || c == '.' || c == '*' || c == '+' || c == '?' || c == '^' || c == '$' || c == '{'
    || c == '}' || c == '(' || c == ')' || c == '|' || c == '[' || c == ']' || c == '\\'
  }

  /** `escapeRegex`: one backslash before every metacharacter. */
  function EscapeRegex(s: string): (r: string)
    ensures |r| >= |s|
  {
    if s == [] then []
    else (if IsRegexMeta(s[0]) then ['\\', s[0]] else [s[0]]) + EscapeRegex(s[1..])
  }

  /**
    The text a regular expression built only from literal characters and
    escaped metacharacters matches; `None` for any pattern that uses a
    metacharacter as an operator or escapes anything else.
  */
  function RegexLiteral(p: string): Option<string>
  {
    if p == [] then Some([])
    else if p[0] == '\\' then
      if |p| >= 2 && IsRegexMeta(p[1]) then
        match RegexLiteral(p[2..])
        case Some(rest) => Some([p[1]] + rest)
        case None => None
      else None
    else if IsRegexMeta(p[0]) then None
    else
      match RegexLiteral(p[1..])
      case Some(rest) => Some([p[0]] + rest)
      case None => None
  }

  /** An escaped string is a literal pattern for exactly the original text. */
  lemma {:induction false} EscapeIsLiteral(s: string)
    ensures RegexLiteral(EscapeRegex(s)) == Some(s)
  {
    if s != [] {
      EscapeIsLiteral(s[1..]);
      var e := EscapeRegex(s);
      if IsRegexMeta(s[0]) {
        assert e[0] == '\\' && e[1] == s[0];
        assert e[2..] == EscapeRegex(s[1..]);
        assert s == [s[0]] + s[1..];
      } else {
        assert e[0] == s[0] && e[0] != '\\' && !IsRegexMeta(e[0]);
        assert e[1..] == EscapeRegex(s[1..]);
        assert s == [s[0]] + s[1..];
      }
    }
  }

  /** Escaping is the only way to write a literal pattern: the encoding is unique. */
  lemma {:induction false} LiteralIsEscape(p: string, s: string)
    requires RegexLiteral(p) == Some(s)
    ensures p == EscapeRegex(s)
  {
    if p != [] {
      if p[0] == '\\' {
        var rest := RegexLiteral(p[2..]).value;
        LiteralIsEscape(p[2..], rest);
        assert p == [p[0], p[1]] + p[2..];
      } else {
        var rest := RegexLiteral(p[1..]).value;
        LiteralIsEscape(p[1..], rest);
        assert p == [p[0]] + p[1..];
      }
    }
  }

  /** Removing the inserted backslashes gives back the input. */
  lemma {:induction false} UnescapeEscape(s: string)
    ensures Unescape(EscapeRegex(s)) == s
  {
    if s != [] {
      UnescapeEscape(s[1..]);
      var e := EscapeRegex(s);
      if IsRegexMeta(s[0]) {
        assert e[2..] == EscapeRegex(s[1..]);
      } else {
        assert e[1..] == EscapeRegex(s[1..]);
      }
    }
  }

  /** Drops each backslash that precedes a metacharacter. */
  function Unescape(p: string): string {
    if p == [] then []
    else if |p| >= 2 && p[0] == '\\' && IsRegexMeta(p[1]) then [p[1]] + Unescape(p[2..])
    else [p[0]] + Unescape(p[1..])
  }
}
