// internal/core/semver.go: parsing and precedence of semantic versions.
//
// The first half follows the code. The second half is SemVer 2.0.0 itself, written
// independently: a version as a syntax tree, its printed form (sections 2, 9 and 10)
// and its precedence (section 11). The theorems relate the two.
module Semver {
  import opened Core
  import opened Decimal
  import opened Strings

  const MAX_UINT64: nat := 0xFFFF_FFFF_FFFF_FFFF

  /** The parsed form; `pre` is the raw prerelease text without its '-'. */
  datatype Semver = Semver(major: nat, minor: nat, patch: nat, pre: string, hasPre: bool)

  // ---- The code --------------------------------------------------------------------

  function NextIdentifier(s: string): (r: (string, string))
    ensures s != "" ==> |r.1| < |s|
  {
    var i := IndexByte(s, '.');
    if i >= 0 then (s[..i], s[i + 1..]) else (s, "")
  }

  predicate IsIdentifierChar(c: char) {
    '0' <= c <= '9' || 'A' <= c <= 'Z' || 'a' <= c <= 'z' || c == '-'
  }

  /** One identifier of a dot-separated list; `strict` forbids leading zeros. */
  predicate IdentifierOk(id: string, strict: bool) {
    && id != ""
    && (forall i | 0 <= i < |id| :: IsIdentifierChar(id[i]))
    && (strict && AllDigits(id) ==> Canonical(id))
  }

  function SplitDots(s: string): (ids: seq<string>)
    ensures |ids| > 0
    ensures forall id | id in ids :: '.' !in id
  {
    var i := IndexByte(s, '.');
    if i < 0 then [s] else [s[..i]] + SplitDots(s[i + 1..])
  }

  predicate DotIdentifiersOk(s: string, strict: bool) {
    forall id | id in SplitDots(s) :: IdentifierOk(id, strict)
  }

  /** The inner loop: every character legal, and no leading zeros where `strict`. */
  method ValidIdentifier(id: string, strict: bool) returns (ok: bool)
    ensures ok == IdentifierOk(id, strict)
  {
    if id == "" {
      return false;
    }
    var allDigits := true;
    for i := 0 to |id|
      invariant forall j | 0 <= j < i :: IsIdentifierChar(id[j])
      invariant allDigits == forall j | 0 <= j < i :: IsDigit(id[j])
    {
      var c := id[i];
      if '0' <= c <= '9' {
      } else if IsIdentifierChar(c) {
        allDigits := false;
      } else {
        return false;
      }
    }
    return !(strict && allDigits && !Canonical(id));
  }

  lemma SplitStep(s: string, strict: bool)
    ensures var (id, rest) := NextIdentifier(s);
            DotIdentifiersOk(s, strict)
            == (IdentifierOk(id, strict) && (IndexByte(s, '.') < 0 || DotIdentifiersOk(rest, strict)))
  {
    if IndexByte(s, '.') >= 0 {
      var (id, rest) := NextIdentifier(s);
      assert SplitDots(s) == [id] + SplitDots(rest);
    }
  }

  method ValidDotIdentifiers(text: string, strict: bool) returns (ok: bool)
    ensures ok == DotIdentifiersOk(text, strict)
  {
    if text == "" {
      assert "" in SplitDots(text);
      return false;
    }
    var s := text;
    while true
      invariant DotIdentifiersOk(text, strict) == DotIdentifiersOk(s, strict)
      decreases |s|
    {
      SplitStep(s, strict);
      var (id, rest) := NextIdentifier(s);
      var legal := ValidIdentifier(id, strict);
      if !legal {
        return false;
      }
      if IndexByte(s, '.') < 0 {
        return true;
      }
      s := rest;
    }
  }

  /** strconv.ParseUint on a digit string: fails past 2^64-1. */
  function ParseUint(s: string): Option<nat>
    requires AllDigits(s)
  {
    if NumeralValue(s) <= MAX_UINT64 then Some(NumeralValue(s)) else None
  }

  /** Consumes one numeric field, ended by `sep` or, when there is none, by the end. */
  function TakeNumericField(s: string, sep: Option<char>): Option<(nat, string)> {
    var i := if sep.Some? then IndexByte(s, sep.value) else |s|;
    if i < 0 then None
    else
      var field, rest := s[..i], if sep.Some? then s[i + 1..] else "";
      if !Canonical(field) then None
      else
        match ParseUint(field)
        case None => None
        case Some(n) => Some((n, rest))
  }

  function ParseTriple(s: string): Option<(nat, nat, nat)> {
    match TakeNumericField(s, Some('.'))
    case None => None
    case Some((major, s1)) =>
      match TakeNumericField(s1, Some('.'))
      case None => None
      case Some((minor, s2)) =>
        match TakeNumericField(s2, None)
        case None => None
        case Some((patch, _)) => Some((major, minor, patch))
  }

  function WithTriple(triple: Option<(nat, nat, nat)>, pre: string, hasPre: bool): Option<Semver> {
    match triple
    case None => None
    case Some((major, minor, patch)) => Some(Semver(major, minor, patch, pre, hasPre))
  }

  /** The part before any build metadata, its first dash at `dash`, or nowhere. */
  function ParseAround(s: string, dash: int): Option<Semver>
    requires dash < |s|
  {
    if dash < 0 then WithTriple(ParseTriple(s), "", false)
    else if !DotIdentifiersOk(s[dash + 1..], true) then None
    else WithTriple(ParseTriple(s[..dash]), s[dash + 1..], true)
  }

  /** The part before any build metadata: a triple and an optional prerelease. */
  function ParsePrecedence(s: string): Option<Semver> { ParseAround(s, IndexByte(s, '-')) }

  /** What parseSemver returns. */
  function Parse(text: string): Option<Semver> {
    var plus := IndexByte(text, '+');
    if plus < 0 then ParsePrecedence(text)
    else if !DotIdentifiersOk(text[plus + 1..], false) then None
    else ParsePrecedence(text[..plus])
  }

  /** The core triple and the prerelease, once any build metadata has been cut off. */
  method ParseUpToBuild(text: string, j: int) returns (r: Option<Semver>)
    requires j < |text|
    ensures r == ParseAround(text, j)
  {
    var s, pre, hasPre := text, "", false;
    if j >= 0 {
      pre, hasPre := s[j + 1..], true;
      var ok := ValidDotIdentifiers(pre, true);
      if !ok {
        return None;
      }
      s := s[..j];
    }
    return WithTriple(ParseTriple(s), pre, hasPre);
  }

  method ParseText(text: string) returns (r: Option<Semver>)
    ensures r == Parse(text)
  {
    if text == "" {
      EmptyIsNoVersion();
      return None;
    }
    var s := text;
    var i := IndexByte(s, '+');
    if i >= 0 {
      var ok := ValidDotIdentifiers(s[i + 1..], false);
      if !ok {
        return None;
      }
      s := s[..i];
    }
    r := ParseUpToBuild(s, IndexByte(s, '-'));
  }

  lemma EmptyIsNoVersion()
    ensures Parse("") == None
  {
    assert IndexByte("", '+') < 0 && IndexByte("", '-') < 0 && IndexByte("", '.') < 0;
  }

  /** The parser: what it returns, and exactly which texts it accepts. */
  method ParseSemver(text: string) returns (r: Option<Semver>)
    ensures r == Parse(text)
    ensures r.Some? <==> IsSemver(text)
  {
    r := ParseText(text);
    ParseAcceptsExactlyTheGrammar(text);
  }

  /** Numeric below alphanumeric; numeric by length then bytes; alphanumeric by bytes. */
  function CompareIdentifier(a: string, b: string): int {
    if Canonical(a) && Canonical(b) then
      if |a| != |b| then Sign(|a|, |b|) else StringCompare(a, b)
    else if Canonical(a) then -1
    else if Canonical(b) then 1
    else StringCompare(a, b)
  }

  function PrereleaseOrder(x: string, y: string): int
    decreases |x|
  {
    if x == "" && y == "" then 0
    else if x == "" then -1
    else if y == "" then 1
    else
      var (xi, xr) := NextIdentifier(x);
      var (yi, yr) := NextIdentifier(y);
      var c := CompareIdentifier(xi, yi);
      if c != 0 then c else PrereleaseOrder(xr, yr)
  }

  method ComparePrerelease(a: string, b: string) returns (c: int)
    ensures c == PrereleaseOrder(a, b)
    ensures DotIdentifiersOk(a, true) && DotIdentifiersOk(b, true) ==>
              c == IdentListOrder(Idents(a), Idents(b))
  {
    if DotIdentifiersOk(a, true) && DotIdentifiersOk(b, true) {
      PrereleaseOrderMeetsSection11(a, b);
    }
    var x, y := a, b;
    while true
      invariant PrereleaseOrder(a, b) == PrereleaseOrder(x, y)
      decreases |x|
    {
      if x == "" && y == "" {
        return 0;
      } else if x == "" {
        return -1;
      } else if y == "" {
        return 1;
      }
      var (xi, xr) := NextIdentifier(x);
      var (yi, yr) := NextIdentifier(y);
      c := CompareIdentifier(xi, yi);
      if c != 0 {
        return;
      }
      x, y := xr, yr;
    }
  }

  function Compare(a: Semver, b: Semver): int {
    if Sign(a.major, b.major) != 0 then Sign(a.major, b.major)
    else if Sign(a.minor, b.minor) != 0 then Sign(a.minor, b.minor)
    else if Sign(a.patch, b.patch) != 0 then Sign(a.patch, b.patch)
    else if !a.hasPre && !b.hasPre then 0
    else if !a.hasPre then 1
    else if !b.hasPre then -1
    else PrereleaseOrder(a.pre, b.pre)
  }

  // ---- SemVer 2.0.0 ----------------------------------------------------------------

  datatype Ident = Numeric(n: nat) | AlphaNumeric(s: string)

  /** A version as a syntax tree; a release has no prerelease identifiers. */
  datatype Version = Version(major: nat, minor: nat, patch: nat, pre: seq<Ident>)

  predicate ValidIdent(id: Ident) {
    match id
    case Numeric(_) => true
    case AlphaNumeric(s) =>
      s != "" && (forall i | 0 <= i < |s| :: IsIdentifierChar(s[i])) && !AllDigits(s)
  }

  ghost predicate ValidVersion(v: Version) {
    && v.major <= MAX_UINT64 && v.minor <= MAX_UINT64 && v.patch <= MAX_UINT64
    && forall id | id in v.pre :: ValidIdent(id)
  }

  ghost predicate ValidBuild(build: seq<string>) {
    forall id | id in build :: id != "" && forall i | 0 <= i < |id| :: IsIdentifierChar(id[i])
  }

  function IdentText(id: Ident): string {
    match id
    case Numeric(n) => Numeral(n)
    case AlphaNumeric(s) => s
  }

  function IdentTexts(ids: seq<Ident>): (texts: seq<string>)
    ensures |texts| == |ids|
    ensures forall i | 0 <= i < |ids| :: texts[i] == IdentText(ids[i])
  {
    seq(|ids|, i requires 0 <= i < |ids| => IdentText(ids[i]))
  }

  function JoinDots(ids: seq<string>): string
    requires |ids| > 0
  {
    if |ids| == 1 then ids[0] else ids[0] + "." + JoinDots(ids[1..])
  }

  /** Sections 2, 9 and 10: MAJOR.MINOR.PATCH[-prerelease][+build]. */
  function Print(v: Version, build: seq<string>): string {
    if build == [] then PrintPrecedence(v) else PrintPrecedence(v) + ['+'] + JoinDots(build)
  }

  function PrintPrecedence(v: Version): string {
    var triple := PrintTriple(v.major, v.minor, v.patch);
    if v.pre == [] then triple else triple + ['-'] + JoinDots(IdentTexts(v.pre))
  }

  function PrintTriple(major: nat, minor: nat, patch: nat): string {
    Numeral(major) + ['.'] + (Numeral(minor) + ['.'] + Numeral(patch))
  }

  ghost predicate IsSemver(s: string) {
    exists v, build :: ValidVersion(v) && ValidBuild(build) && s == Print(v, build)
  }

  /** Section 11.4, one identifier at a time, with unbounded numbers. */
  function IdentOrder(a: Ident, b: Ident): int {
    match (a, b)
    case (Numeric(m), Numeric(n)) => Sign(m, n)
    case (Numeric(_), AlphaNumeric(_)) => -1
    case (AlphaNumeric(_), Numeric(_)) => 1
    case (AlphaNumeric(s), AlphaNumeric(t)) => StringCompare(s, t)
  }

  function IdentListOrder(xs: seq<Ident>, ys: seq<Ident>): int {
    if xs == [] && ys == [] then 0
    else if xs == [] then -1
    else if ys == [] then 1
    else if IdentOrder(xs[0], ys[0]) != 0 then IdentOrder(xs[0], ys[0])
    else IdentListOrder(xs[1..], ys[1..])
  }

  /** Section 11: precedence. */
  function Precedence(v: Version, w: Version): int {
    if v.major != w.major then Sign(v.major, w.major)
    else if v.minor != w.minor then Sign(v.minor, w.minor)
    else if v.patch != w.patch then Sign(v.patch, w.patch)
    else if v.pre == [] && w.pre == [] then 0
    else if v.pre == [] then 1
    else if w.pre == [] then -1
    else IdentListOrder(v.pre, w.pre)
  }

  // ---- From text to tree -----------------------------------------------------------

  function IdentOf(text: string): Ident {
    if AllDigits(text) then Numeric(NumeralValue(text)) else AlphaNumeric(text)
  }

  function IdentsOf(texts: seq<string>): (ids: seq<Ident>)
    ensures |ids| == |texts|
    ensures forall i | 0 <= i < |texts| :: ids[i] == IdentOf(texts[i])
  {
    seq(|texts|, i requires 0 <= i < |texts| => IdentOf(texts[i]))
  }

  function Idents(pre: string): seq<Ident> { IdentsOf(SplitDots(pre)) }

  /** The version a parsed value stands for. */
  function Meaning(s: Semver): Version {
    Version(s.major, s.minor, s.patch, if s.hasPre then Idents(s.pre) else [])
  }

  function FromVersion(v: Version): Semver {
    Semver(v.major, v.minor, v.patch,
           if v.pre == [] then "" else JoinDots(IdentTexts(v.pre)), v.pre != [])
  }

  /** The values the parser produces. */
  predicate ValidSemver(s: Semver) {
    && s.major <= MAX_UINT64 && s.minor <= MAX_UINT64 && s.patch <= MAX_UINT64
    && if s.hasPre then DotIdentifiersOk(s.pre, true) else s.pre == ""
  }

  // ---- Splitting and joining -------------------------------------------------------

  lemma JoinCons(id: string, ids: seq<string>)
    requires |ids| > 0
    ensures JoinDots([id] + ids) == id + ['.'] + JoinDots(ids)
  {
    assert ([id] + ids)[1..] == ids;
  }

  lemma {:induction false} SplitOfJoin(ids: seq<string>)
    requires |ids| > 0 && forall id | id in ids :: '.' !in id
    ensures SplitDots(JoinDots(ids)) == ids
  {
    if |ids| > 1 {
      var id, rest := ids[0], ids[1..];
      assert ids == [id] + rest;
      JoinCons(id, rest);
      IndexOfFirst(id, '.', JoinDots(rest));
      CutAt(id, '.', JoinDots(rest));
      SplitOfJoin(rest);
    } else {
      assert ids[0] in ids;
      assert ids == [ids[0]];
    }
  }

  lemma {:induction false} JoinOfSplit(s: string)
    ensures JoinDots(SplitDots(s)) == s
  {
    var i := IndexByte(s, '.');
    if i >= 0 {
      JoinCons(s[..i], SplitDots(s[i + 1..]));
      JoinOfSplit(s[i + 1..]);
      SplitAtFirst(s, '.');
    }
  }

  lemma {:induction false} JoinedChars(ids: seq<string>)
    requires |ids| > 0
    requires forall id | id in ids :: forall i | 0 <= i < |id| :: IsIdentifierChar(id[i])
    ensures forall c | c in JoinDots(ids) :: IsIdentifierChar(c) || c == '.'
    ensures '+' !in JoinDots(ids)
  {
    if |ids| > 1 {
      JoinedChars(ids[1..]);
    }
  }

  /** A strict identifier and the text of its tree are the same string. */
  lemma IdentRoundTrip(text: string)
    requires IdentifierOk(text, true)
    ensures ValidIdent(IdentOf(text)) && IdentText(IdentOf(text)) == text
  {
    if AllDigits(text) {
      NumeralOfValue(text);
    }
  }

  lemma IdentTextRoundTrip(id: Ident)
    requires ValidIdent(id)
    ensures IdentifierOk(IdentText(id), true) && IdentOf(IdentText(id)) == id
    ensures '.' !in IdentText(id)
  {
    match id
    case Numeric(n) =>
      ValueOfNumeral(n);
      forall i | 0 <= i < |Numeral(n)| ensures IsIdentifierChar(Numeral(n)[i]) {
        assert IsDigit(Numeral(n)[i]);
      }
    case AlphaNumeric(_) =>
  }

  /** Prerelease texts and identifier lists determine each other. */
  lemma PrereleaseRoundTrip(pre: string)
    requires DotIdentifiersOk(pre, true)
    ensures Idents(pre) != [] && forall id | id in Idents(pre) :: ValidIdent(id)
    ensures JoinDots(IdentTexts(Idents(pre))) == pre
  {
    var texts := SplitDots(pre);
    forall i | 0 <= i < |texts|
      ensures ValidIdent(IdentOf(texts[i])) && IdentText(IdentOf(texts[i])) == texts[i]
    {
      IdentRoundTrip(texts[i]);
    }
    assert IdentTexts(Idents(pre)) == texts;
    JoinOfSplit(pre);
  }

  lemma PrereleaseTextRoundTrip(ids: seq<Ident>)
    requires ids != [] && forall id | id in ids :: ValidIdent(id)
    ensures DotIdentifiersOk(JoinDots(IdentTexts(ids)), true)
    ensures Idents(JoinDots(IdentTexts(ids))) == ids
    ensures '+' !in JoinDots(IdentTexts(ids))
  {
    var texts := IdentTexts(ids);
    forall i | 0 <= i < |ids|
      ensures IdentifierOk(texts[i], true) && IdentOf(texts[i]) == ids[i] && '.' !in texts[i]
    {
      IdentTextRoundTrip(ids[i]);
    }
    SplitOfJoin(texts);
    JoinedChars(texts);
    assert IdentsOf(texts) == ids;
  }

  // ---- Theorems: the grammar -------------------------------------------------------

  lemma FieldRoundTrip(n: nat, rest: string)
    requires n <= MAX_UINT64
    ensures TakeNumericField(Numeral(n) + ['.'] + rest, Some('.')) == Some((n, rest))
  {
    var field := Numeral(n);
    ValueOfNumeral(n);
    IndexOfFirst(field, '.', rest);
    CutAt(field, '.', rest);
  }

  lemma LastFieldRoundTrip(n: nat)
    requires n <= MAX_UINT64
    ensures TakeNumericField(Numeral(n), None) == Some((n, ""))
  {
    ValueOfNumeral(n);
    assert Numeral(n)[..|Numeral(n)|] == Numeral(n);
  }

  lemma TripleRoundTrip(major: nat, minor: nat, patch: nat)
    requires major <= MAX_UINT64 && minor <= MAX_UINT64 && patch <= MAX_UINT64
    ensures ParseTriple(PrintTriple(major, minor, patch)) == Some((major, minor, patch))
  {
    var s1 := Numeral(minor) + ['.'] + Numeral(patch);
    FieldRoundTrip(major, s1);
    FieldRoundTrip(minor, Numeral(patch));
    LastFieldRoundTrip(patch);
  }

  lemma TripleChars(major: nat, minor: nat, patch: nat)
    ensures '-' !in PrintTriple(major, minor, patch) && '+' !in PrintTriple(major, minor, patch)
  {
    assert AllDigits(Numeral(major)) && AllDigits(Numeral(minor)) && AllDigits(Numeral(patch));
  }

  lemma FieldShape(s: string, sep: Option<char>)
    ensures match TakeNumericField(s, sep)
            case None => true
            case Some((n, rest)) =>
              n <= MAX_UINT64 && s == if sep.Some? then Numeral(n) + [sep.value] + rest else Numeral(n)
  {
    match TakeNumericField(s, sep)
    case None =>
    case Some((n, rest)) =>
      var i := if sep.Some? then IndexByte(s, sep.value) else |s|;
      NumeralOfValue(s[..i]);
      if sep.Some? {
        SplitAtFirst(s, sep.value);
      } else {
        assert s[..i] == s;
      }
  }

  lemma TripleShape(s: string)
    ensures match ParseTriple(s)
            case None => true
            case Some((major, minor, patch)) =>
              && major <= MAX_UINT64 && minor <= MAX_UINT64 && patch <= MAX_UINT64
              && s == PrintTriple(major, minor, patch)
  {
    match ParseTriple(s)
    case None =>
    case Some((major, minor, patch)) =>
      var (_, s1) := TakeNumericField(s, Some('.')).value;
      var (_, s2) := TakeNumericField(s1, Some('.')).value;
      FieldShape(s, Some('.'));
      FieldShape(s1, Some('.'));
      FieldShape(s2, None);
  }

  lemma PrecedenceRoundTrip(v: Version)
    requires ValidVersion(v)
    ensures ParsePrecedence(PrintPrecedence(v)) == Some(FromVersion(v))
    ensures Meaning(FromVersion(v)) == v
  {
    var triple := PrintTriple(v.major, v.minor, v.patch);
    TripleRoundTrip(v.major, v.minor, v.patch);
    TripleChars(v.major, v.minor, v.patch);
    if v.pre != [] {
      var pre := JoinDots(IdentTexts(v.pre));
      PrereleaseTextRoundTrip(v.pre);
      IndexOfFirst(triple, '-', pre);
      CutAt(triple, '-', pre);
    }
  }

  lemma NoPlusInPrecedence(v: Version)
    requires ValidVersion(v)
    ensures '+' !in PrintPrecedence(v)
  {
    TripleChars(v.major, v.minor, v.patch);
    if v.pre != [] {
      PrereleaseTextRoundTrip(v.pre);
    }
  }

  /** Every printed version parses, to the same value whatever its build metadata. */
  lemma ParseOfPrint(v: Version, build: seq<string>)
    requires ValidVersion(v) && ValidBuild(build)
    ensures Parse(Print(v, build)) == Some(FromVersion(v))
    ensures Meaning(FromVersion(v)) == v
  {
    PrecedenceRoundTrip(v);
    NoPlusInPrecedence(v);
    if build == [] {
      assert IndexByte(Print(v, build), '+') < 0;
    } else {
      BuildMetadataIsIgnored(PrintPrecedence(v), build);
    }
  }

  lemma BuildTextOk(build: seq<string>)
    requires build != [] && ValidBuild(build)
    ensures DotIdentifiersOk(JoinDots(build), false)
  {
    forall id | id in build ensures '.' !in id {
    }
    SplitOfJoin(build);
  }

  lemma BuildTextShape(text: string)
    requires DotIdentifiersOk(text, false)
    ensures SplitDots(text) != [] && ValidBuild(SplitDots(text)) && JoinDots(SplitDots(text)) == text
  {
    JoinOfSplit(text);
  }

  lemma MeaningIsFaithful(s: Semver)
    requires ValidSemver(s)
    ensures ValidVersion(Meaning(s)) && FromVersion(Meaning(s)) == s
    ensures var triple := PrintTriple(s.major, s.minor, s.patch);
            PrintPrecedence(Meaning(s)) == if s.hasPre then triple + ['-'] + s.pre else triple
  {
    if s.hasPre {
      PrereleaseRoundTrip(s.pre);
    }
  }

  lemma PrecedenceShape(s: string)
    requires ParsePrecedence(s).Some?
    ensures var v := ParsePrecedence(s).value;
            && ValidSemver(v)
            && var triple := PrintTriple(v.major, v.minor, v.patch);
               s == if v.hasPre then triple + ['-'] + v.pre else triple
  {
    var dash := IndexByte(s, '-');
    if dash < 0 {
      TripleShape(s);
    } else {
      TripleShape(s[..dash]);
      SplitAtFirst(s, '-');
    }
  }

  lemma PrintOfParsePrecedence(s: string)
    requires ParsePrecedence(s).Some?
    ensures var v := Meaning(ParsePrecedence(s).value);
            ValidVersion(v) && s == PrintPrecedence(v) && FromVersion(v) == ParsePrecedence(s).value
  {
    PrecedenceShape(s);
    MeaningIsFaithful(ParsePrecedence(s).value);
  }

  /** Every text that parses is the printed form of the version it parses to. */
  lemma PrintOfParse(text: string) returns (build: seq<string>)
    requires Parse(text).Some?
    ensures ValidVersion(Meaning(Parse(text).value)) && ValidBuild(build)
    ensures text == Print(Meaning(Parse(text).value), build)
    ensures FromVersion(Meaning(Parse(text).value)) == Parse(text).value
  {
    var plus := IndexByte(text, '+');
    var s := if plus < 0 then text else text[..plus];
    PrintOfParsePrecedence(s);
    var v := Meaning(ParsePrecedence(s).value);
    if plus < 0 {
      build := [];
    } else {
      build := PrintWithBuild(text, v);
    }
  }

  lemma PrintWithBuild(text: string, v: Version) returns (build: seq<string>)
    requires IndexByte(text, '+') >= 0
    requires text[..IndexByte(text, '+')] == PrintPrecedence(v)
    requires DotIdentifiersOk(text[IndexByte(text, '+') + 1..], false)
    ensures ValidBuild(build) && text == Print(v, build)
  {
    build := SplitDots(text[IndexByte(text, '+') + 1..]);
    BuildTextShape(text[IndexByte(text, '+') + 1..]);
    SplitAtFirst(text, '+');
  }

  /** The parser accepts exactly the grammar, core numbers bounded by 2^64-1. */
  lemma ParseAcceptsExactlyTheGrammar(text: string)
    ensures Parse(text).Some? <==> IsSemver(text)
  {
    if Parse(text).Some? {
      var build := PrintOfParse(text);
    }
    if IsSemver(text) {
      var v, build :| ValidVersion(v) && ValidBuild(build) && text == Print(v, build);
      ParseOfPrint(v, build);
    }
  }

  /** Printing a parsed version, with any valid build metadata, parses back to it. */
  lemma ReparseIsIdentity(text: string, build: seq<string>)
    requires Parse(text).Some? && ValidBuild(build)
    ensures Parse(Print(Meaning(Parse(text).value), build)) == Parse(text)
  {
    var _ := PrintOfParse(text);
    ParseOfPrint(Meaning(Parse(text).value), build);
  }

  // ---- Theorems: precedence --------------------------------------------------------

  lemma CompareIdentifierMeetsSection11(a: string, b: string)
    requires IdentifierOk(a, true) && IdentifierOk(b, true)
    ensures CompareIdentifier(a, b) == IdentOrder(IdentOf(a), IdentOf(b))
  {
    if AllDigits(a) && AllDigits(b) {
      if |a| < |b| {
        LongerIsLarger(a, b);
      } else if |b| < |a| {
        LongerIsLarger(b, a);
      } else {
        EqualLengthOrder(a, b);
      }
    }
  }

  /** The identifiers left to compare: none once the text is used up. */
  function Remaining(pre: string): seq<Ident> { if pre == "" then [] else Idents(pre) }

  lemma IdentsStep(pre: string)
    requires IndexByte(pre, '.') >= 0
    ensures var (id, rest) := NextIdentifier(pre);
            Idents(pre) == [IdentOf(id)] + Idents(rest)
  {
    var (id, rest) := NextIdentifier(pre);
    assert SplitDots(pre) == [id] + SplitDots(rest);
    IdentsOfCons(id, SplitDots(rest));
  }

  lemma IdentsOfCons(id: string, ids: seq<string>)
    ensures IdentsOf([id] + ids) == [IdentOf(id)] + IdentsOf(ids)
  {
  }

  lemma EmptyIsNoList()
    ensures !DotIdentifiersOk("", true)
  {
    assert "" in SplitDots("");
  }

  lemma RemainingStep(pre: string)
    requires pre != "" && DotIdentifiersOk(pre, true)
    ensures var (id, rest) := NextIdentifier(pre);
            && IdentifierOk(id, true)
            && (rest != "" ==> DotIdentifiersOk(rest, true))
            && Remaining(pre) == [IdentOf(id)] + Remaining(rest)
  {
    SplitStep(pre, true);
    if IndexByte(pre, '.') >= 0 {
      IdentsStep(pre);
      EmptyIsNoList();
    } else {
      assert SplitDots(pre) == [pre];
    }
  }

  lemma HeadsFirst(a: Ident, xs: seq<Ident>, b: Ident, ys: seq<Ident>)
    ensures IdentListOrder([a] + xs, [b] + ys)
            == if IdentOrder(a, b) != 0 then IdentOrder(a, b) else IdentListOrder(xs, ys)
  {
    assert ([a] + xs)[1..] == xs && ([b] + ys)[1..] == ys;
  }

  lemma {:induction false} RemainingOrder(x: string, y: string)
    requires x != "" ==> DotIdentifiersOk(x, true)
    requires y != "" ==> DotIdentifiersOk(y, true)
    ensures PrereleaseOrder(x, y) == IdentListOrder(Remaining(x), Remaining(y))
    decreases |x|
  {
    if x != "" && y != "" {
      RemainingStep(x);
      RemainingStep(y);
      var (xi, xr) := NextIdentifier(x);
      var (yi, yr) := NextIdentifier(y);
      CompareIdentifierMeetsSection11(xi, yi);
      RemainingOrder(xr, yr);
      HeadsFirst(IdentOf(xi), Remaining(xr), IdentOf(yi), Remaining(yr));
    }
  }

  lemma PrereleaseOrderMeetsSection11(x: string, y: string)
    requires DotIdentifiersOk(x, true) && DotIdentifiersOk(y, true)
    ensures PrereleaseOrder(x, y) == IdentListOrder(Idents(x), Idents(y))
  {
    assert x != "" by { assert SplitDots(x)[0] in SplitDots(x); }
    assert y != "" by { assert SplitDots(y)[0] in SplitDots(y); }
    RemainingOrder(x, y);
  }

  /** On parsed versions the comparison is section 11's precedence. */
  lemma CompareMeetsSection11(a: Semver, b: Semver)
    requires ValidSemver(a) && ValidSemver(b)
    ensures Compare(a, b) == Precedence(Meaning(a), Meaning(b))
  {
    if a.hasPre && b.hasPre {
      PrereleaseOrderMeetsSection11(a.pre, b.pre);
    }
  }

  /** The parser produces exactly the valid values. */
  lemma ValidIsParsed(s: Semver)
    ensures ValidSemver(s) <==> exists text :: Parse(text) == Some(s)
  {
    if ValidSemver(s) {
      MeaningIsFaithful(s);
      ParseOfPrint(Meaning(s), []);
      assert Parse(Print(Meaning(s), [])) == Some(s);
    }
    if text :| Parse(text) == Some(s) {
      var plus := IndexByte(text, '+');
      PrecedenceShape(if plus < 0 then text else text[..plus]);
    }
  }

  lemma IdentOrderLaws(a: Ident, b: Ident, c: Ident)
    ensures IdentOrder(b, a) == -IdentOrder(a, b)
    ensures IdentOrder(a, b) == 0 <==> a == b
    ensures IdentOrder(a, b) <= 0 && IdentOrder(b, c) <= 0 ==>
              && IdentOrder(a, c) <= 0
              && (IdentOrder(a, b) < 0 || IdentOrder(b, c) < 0 ==> IdentOrder(a, c) < 0)
  {
    if a.AlphaNumeric? && b.AlphaNumeric? {
      StringCompareLaws(a.s, b.s);
      if c.AlphaNumeric? && IdentOrder(a, b) <= 0 && IdentOrder(b, c) <= 0 {
        StringCompareTransitive(a.s, b.s, c.s);
      }
    }
  }

  lemma {:induction false} IdentListOrderLaws(xs: seq<Ident>, ys: seq<Ident>, zs: seq<Ident>)
    ensures IdentListOrder(ys, xs) == -IdentListOrder(xs, ys)
    ensures IdentListOrder(xs, ys) == 0 <==> xs == ys
    ensures IdentListOrder(xs, ys) <= 0 && IdentListOrder(ys, zs) <= 0 ==>
              && IdentListOrder(xs, zs) <= 0
              && (IdentListOrder(xs, ys) < 0 || IdentListOrder(ys, zs) < 0 ==>
                    IdentListOrder(xs, zs) < 0)
    decreases |xs|
  {
    if xs != [] && ys != [] {
      IdentOrderLaws(xs[0], ys[0], if zs != [] then zs[0] else xs[0]);
      IdentListOrderLaws(xs[1..], ys[1..], if zs != [] then zs[1..] else []);
      assert xs == [xs[0]] + xs[1..] && ys == [ys[0]] + ys[1..];
    }
  }

  /**
   * On parsed versions `Compare` is a total order: antisymmetric, transitive, and zero
   * exactly when triple and prerelease agree.
   */
  lemma CompareIsATotalOrder(x: Semver, y: Semver, z: Semver)
    requires ValidSemver(x) && ValidSemver(y) && ValidSemver(z)
    ensures Compare(y, x) == -Compare(x, y)
    ensures Compare(x, y) == 0 <==> x == y
    ensures Compare(x, y) <= 0 && Compare(y, z) <= 0 ==> Compare(x, z) <= 0
  {
    CompareMeetsSection11(x, y);
    CompareMeetsSection11(y, x);
    CompareMeetsSection11(y, z);
    CompareMeetsSection11(x, z);
    MeaningIsFaithful(x);
    MeaningIsFaithful(y);
    IdentListOrderLaws(Meaning(x).pre, Meaning(y).pre, Meaning(z).pre);
  }

  /** Build metadata never changes the parsed value. */
  lemma BuildMetadataIsIgnored(text: string, build: seq<string>)
    requires '+' !in text && build != [] && ValidBuild(build)
    ensures Parse(text + ['+'] + JoinDots(build)) == Parse(text)
  {
    IndexOfFirst(text, '+', JoinDots(build));
    CutAt(text, '+', JoinDots(build));
    BuildTextOk(build);
  }

  /** The comparison of two printed versions is their precedence; it is zero for equal ones only. */
  lemma PrintedVersionsCompare(v: Version, vBuild: seq<string>, w: Version, wBuild: seq<string>)
    requires ValidVersion(v) && ValidBuild(vBuild) && ValidVersion(w) && ValidBuild(wBuild)
    ensures var a, b := Parse(Print(v, vBuild)), Parse(Print(w, wBuild));
            && a.Some? && b.Some? && Compare(a.value, b.value) == Precedence(v, w)
            && (Precedence(v, w) == 0 <==> v == w)
  {
    ParseOfPrint(v, vBuild);
    ParseOfPrint(w, wBuild);
    ValidIsParsed(FromVersion(v));
    ValidIsParsed(FromVersion(w));
    CompareMeetsSection11(FromVersion(v), FromVersion(w));
    CompareIsATotalOrder(FromVersion(v), FromVersion(w), FromVersion(w));
  }

  /**
   * Section 11 in its own words: core numbers first, numerically; a prerelease below its
   * release; then identifier by identifier, more of them above fewer.
   */
  lemma PrecedenceLaws(v: Version, w: Version)
    ensures v.major < w.major ==> Precedence(v, w) == -1
    ensures v.major == w.major && v.minor < w.minor ==> Precedence(v, w) == -1
    ensures v.major == w.major && v.minor == w.minor && v.patch < w.patch ==> Precedence(v, w) == -1
    ensures v.major == w.major && v.minor == w.minor && v.patch == w.patch ==>
              && (v.pre != [] && w.pre == [] ==> Precedence(v, w) == -1)
              && (v.pre != [] && w.pre != [] && v.pre[0] != w.pre[0] ==>
                    Precedence(v, w) == IdentOrder(v.pre[0], w.pre[0]))
              && (v.pre != [] && v.pre < w.pre ==> Precedence(v, w) == -1)
  {
    if v.pre != [] && w.pre != [] {
      IdentOrderLaws(v.pre[0], w.pre[0], w.pre[0]);
      PrefixIsBelow(v.pre, w.pre);
    }
  }

  lemma {:induction false} PrefixIsBelow(xs: seq<Ident>, ys: seq<Ident>)
    ensures xs < ys ==> IdentListOrder(xs, ys) == -1
  {
    if xs != [] && xs < ys {
      IdentOrderLaws(xs[0], ys[0], ys[0]);
      PrefixIsBelow(xs[1..], ys[1..]);
    }
  }

  /** Numeric identifiers as numbers and below the others, which go by their bytes. */
  lemma IdentifierLaws(m: nat, n: nat, s: string, t: string)
    ensures m < n ==> IdentOrder(Numeric(m), Numeric(n)) == -1
    ensures IdentOrder(Numeric(m), AlphaNumeric(s)) == -1
    ensures IdentOrder(AlphaNumeric(s), AlphaNumeric(t)) < 0 <==> exists k :: Below(s, t, k)
  {
    LexicalOrder(s, t);
  }

  function Release(pre: seq<Ident>): Version { Version(1, 0, 0, pre) }

  /** The chain section 11.4 gives as its example. */
  lemma TheExampleOfSection11()
    ensures Precedence(Release([AlphaNumeric("alpha")]), Release([AlphaNumeric("alpha"), Numeric(1)])) == -1
    ensures Precedence(Release([AlphaNumeric("alpha"), Numeric(1)]),
                       Release([AlphaNumeric("alpha"), AlphaNumeric("beta")])) == -1
    ensures Precedence(Release([AlphaNumeric("alpha"), AlphaNumeric("beta")]), Release([AlphaNumeric("beta")])) == -1
    ensures Precedence(Release([AlphaNumeric("beta")]), Release([AlphaNumeric("beta"), Numeric(2)])) == -1
    ensures Precedence(Release([AlphaNumeric("beta"), Numeric(2)]),
                       Release([AlphaNumeric("beta"), Numeric(11)])) == -1
    ensures Precedence(Release([AlphaNumeric("beta"), Numeric(11)]),
                       Release([AlphaNumeric("rc"), Numeric(1)])) == -1
    ensures Precedence(Release([AlphaNumeric("rc"), Numeric(1)]), Release([])) == -1
  {
  }

  lemma SmallNumerals()
    ensures Numeral(1) == "1" && Numeral(2) == "2" && Numeral(3) == "3" && Numeral(4) == "4" && Numeral(20) == "20"
  {
  }

  lemma PartsInFull()
    ensures PrintTriple(1, 20, 3) == "1.20.3"
    ensures IdentTexts([AlphaNumeric("rc"), Numeric(4)]) == ["rc", "4"]
    ensures JoinDots(["rc", "4"]) == "rc.4" && JoinDots(["b", "5"]) == "b.5"
  {
    SmallNumerals();
    assert ["rc", "4"][1..] == ["4"] && ["b", "5"][1..] == ["5"];
  }

  /** One version in full. */
  lemma AVersionInFull()
    ensures Print(Version(1, 20, 3, [AlphaNumeric("rc"), Numeric(4)]), ["b", "5"]) == "1.20.3-rc.4+b.5"
  {
    PartsInFull();
    assert PrintPrecedence(Version(1, 20, 3, [AlphaNumeric("rc"), Numeric(4)])) == "1.20.3-rc.4";
  }
}
