/** Semantic Versioning 2.0.0: the version grammar (sections 2, 9 and 10) and
    the precedence order of section 11, used to decide whether a remote plugin
    manifest is newer than the installed one. */
module Semver {
  import opened Wrappers

  /** A pre-release identifier: numeric ones compare by value, others by ASCII. */
  datatype Identifier = Numeric(n: nat) | AlphaNumeric(s: string)

  datatype Version = Version(
    major: nat,
    minor: nat,
    patch: nat,
    prerelease: seq<Identifier>,
    build: seq<string>)

  // ---------------------------------------------------------------- characters

  predicate IsDigit(c: char) {
    '0' <= c <= '9'
  }

  predicate IsIdentifierChar(c: char) {
    IsDigit(c) || 'a' <= c <= 'z' || 'A' <= c <= 'Z' || c == '-'
  }

  predicate AllDigits(s: string) {
    forall i :: 0 <= i < |s| ==> IsDigit(s[i])
  }

  predicate AllIdentifierChars(s: string) {
    forall i :: 0 <= i < |s| ==> IsIdentifierChar(s[i])
  }

  /** A numeric identifier: one or more digits, no leading zero. */
  predicate IsNumeral(s: string) {
    |s| > 0 && AllDigits(s) && (s[0] == '0' ==> |s| == 1)
  }

  predicate IsPrereleaseIdentifier(id: Identifier) {
    match id
    case Numeric(_) => true
    case AlphaNumeric(s) => |s| > 0 && AllIdentifierChars(s) && !AllDigits(s)
  }

  predicate IsBuildIdentifier(s: string) {
    |s| > 0 && AllIdentifierChars(s)
  }

  /** A version every part of which can be written down in the grammar. */
  predicate WellFormed(v: Version) {
    && (forall i :: 0 <= i < |v.prerelease| ==> IsPrereleaseIdentifier(v.prerelease[i]))
    && (forall i :: 0 <= i < |v.build| ==> IsBuildIdentifier(v.build[i]))
  }

  // ------------------------------------------------------------------ numerals

  function DigitChar(d: nat): (c: char)
    requires d < 10
    ensures IsDigit(c)
  {
    ('0' as int + d) as char
  }

  /** The decimal value of a digit string. */
  function ValueOf(s: string): nat
    requires AllDigits(s)
    decreases |s|
  {
    if |s| == 0 then 0
    else ValueOf(s[..|s| - 1]) * 10 + (s[|s| - 1] as int - '0' as int)
  }

  /** The decimal numeral of `n`. */
  function Numeral(n: nat): (s: string)
    ensures IsNumeral(s)
    ensures ValueOf(s) == n
  {
    if n < 10 then [DigitChar(n)]
    else
      var prefix := Numeral(n / 10);
      var s := prefix + [DigitChar(n % 10)];
      assert s[..|s| - 1] == prefix;
      s
  }

  lemma {:induction false} LeadingDigitPositive(s: string)
    requires |s| > 0 && AllDigits(s) && s[0] != '0'
    ensures ValueOf(s) >= 1
    decreases |s|
  {
    if |s| > 1 {
      var prefix := s[..|s| - 1];
      assert prefix[0] == s[0];
      LeadingDigitPositive(prefix);
    }
  }

  /** A numeral is the only spelling of its value. */
  lemma {:induction false} NumeralOfValue(s: string)
    requires IsNumeral(s)
    ensures Numeral(ValueOf(s)) == s
    decreases |s|
  {
    if |s| > 1 {
      var prefix := s[..|s| - 1];
      assert prefix[0] == s[0];
      LeadingDigitPositive(prefix);
      NumeralOfValue(prefix);
      var n := ValueOf(s);
      assert n / 10 == ValueOf(prefix);
      assert s == prefix + [s[|s| - 1]];
    }
  }

  // ------------------------------------------------------ splitting and joining

  /** The position of the first `c` in `s`. */
  function IndexOf(s: string, c: char): (i: nat)
    requires c in s
    ensures i < |s| && s[i] == c && c !in s[..i]
  {
    if s[0] == c then 0
    else
      var j := IndexOf(s[1..], c);
      assert s[..j + 1] == [s[0]] + s[1..][..j];
      j + 1
  }

  lemma IndexOfIs(s: string, c: char, k: nat)
    requires k < |s| && s[k] == c && c !in s[..k]
    ensures c in s && IndexOf(s, c) == k
  {
    assert s[k] in s;
    var i := IndexOf(s, c);
    assert i >= k by {
      assert forall j :: 0 <= j < k ==> s[..k][j] == s[j];
    }
    assert i <= k by {
      assert forall j :: 0 <= j < i ==> s[..i][j] == s[j];
    }
  }

  /** The pieces of `s` between occurrences of `sep`. */
  function Split(s: string, sep: char): (parts: seq<string>)
    ensures |parts| >= 1
    ensures forall p :: p in parts ==> sep !in p
    decreases |s|
  {
    if sep !in s then [s]
    else
      var i := IndexOf(s, sep);
      [s[..i]] + Split(s[i + 1..], sep)
  }

  /** The pieces `parts` with `sep` between neighbours. */
  function Join(parts: seq<string>, sep: char): string
  {
    if |parts| == 0 then ""
    else if |parts| == 1 then parts[0]
    else parts[0] + [sep] + Join(parts[1..], sep)
  }

  lemma {:induction false} JoinAvoids(parts: seq<string>, sep: char, c: char)
    requires c != sep
    requires forall p :: p in parts ==> c !in p
    ensures c !in Join(parts, sep)
    decreases |parts|
  {
    if |parts| > 1 {
      JoinAvoids(parts[1..], sep, c);
      assert parts[0] in parts;
    } else if |parts| == 1 {
      assert parts[0] in parts;
    }
  }

  /** Joining pieces free of the separator and splitting again gives them back. */
  lemma {:induction false} SplitJoin(parts: seq<string>, sep: char)
    requires |parts| >= 1
    requires forall p :: p in parts ==> sep !in p
    ensures Split(Join(parts, sep), sep) == parts
    decreases |parts|
  {
    if |parts| > 1 {
      var head := parts[0];
      assert head in parts;
      var rest := Join(parts[1..], sep);
      var s := Join(parts, sep);
      assert s == head + [sep] + rest;
      assert s[..|head|] == head;
      IndexOfIs(s, sep, |head|);
      assert s[|head| + 1..] == rest;
      SplitJoin(parts[1..], sep);
    }
  }

  /** Splitting and joining again gives the string back. */
  lemma {:induction false} JoinSplit(s: string, sep: char)
    ensures Join(Split(s, sep), sep) == s
    decreases |s|
  {
    if sep in s {
      var i := IndexOf(s, sep);
      var rest := Split(s[i + 1..], sep);
      var parts := Split(s, sep);
      assert parts == [s[..i]] + rest;
      assert parts[0] == s[..i] && parts[1..] == rest;
      assert Join(parts, sep) == s[..i] + [sep] + Join(rest, sep);
      JoinSplit(s[i + 1..], sep);
      assert s == s[..i] + [sep] + s[i + 1..];
    }
  }

  // ------------------------------------------------------------------- parsing

  function ParseNumeral(s: string): Option<nat>
  {
    if IsNumeral(s) then Some(ValueOf(s)) else None
  }

  function ParseIdentifier(s: string): (r: Option<Identifier>)
    ensures r.Some? ==> IsPrereleaseIdentifier(r.value)
  {
    if |s| == 0 || !AllIdentifierChars(s) then None
    else if AllDigits(s) then (if IsNumeral(s) then Some(Numeric(ValueOf(s))) else None)
    else Some(AlphaNumeric(s))
  }

  function ParsePrerelease(parts: seq<string>): (r: Option<seq<Identifier>>)
    ensures r.Some? ==> |r.value| == |parts|
    ensures r.Some? ==> forall i :: 0 <= i < |r.value| ==> IsPrereleaseIdentifier(r.value[i])
  {
    if |parts| == 0 then Some([])
    else
      var id :- ParseIdentifier(parts[0]);
      var rest :- ParsePrerelease(parts[1..]);
      Some([id] + rest)
  }

  function ParseBuild(parts: seq<string>): Option<seq<string>>
  {
    if forall i :: 0 <= i < |parts| ==> IsBuildIdentifier(parts[i]) then Some(parts) else None
  }

  /** `MAJOR.MINOR.PATCH` as three numbers. */
  function ParseCore(s: string): Option<(nat, nat, nat)>
  {
    var parts := Split(s, '.');
    if |parts| != 3 then None
    else
      var major :- ParseNumeral(parts[0]);
      var minor :- ParseNumeral(parts[1]);
      var patch :- ParseNumeral(parts[2]);
      Some((major, minor, patch))
  }

  /** `s` cut at its first `sep`: the part before, and the part after if any. */
  function CutAt(s: string, sep: char): (string, Option<string>)
  {
    if sep in s then
      var i := IndexOf(s, sep);
      (s[..i], Some(s[i + 1..]))
    else (s, None)
  }

  /** The identifiers after a `-`, if there is one. */
  function PrereleaseOf(pre: Option<string>): (r: Option<seq<Identifier>>)
    ensures r.Some? ==> forall i :: 0 <= i < |r.value| ==> IsPrereleaseIdentifier(r.value[i])
  {
    if pre.Some? then ParsePrerelease(Split(pre.value, '.')) else Some([])
  }

  /** The identifiers after a `+`, if there is one. */
  function BuildOf(build: Option<string>): (r: Option<seq<string>>)
    ensures r.Some? ==> forall i :: 0 <= i < |r.value| ==> IsBuildIdentifier(r.value[i])
  {
    if build.Some? then ParseBuild(Split(build.value, '.')) else Some([])
  }

  /** The version `s` denotes in the grammar of Semantic Versioning 2.0.0,
      or None when `s` is not in the grammar. */
  function ParseText(s: string): (r: Option<Version>)
    ensures r.Some? ==> WellFormed(r.value)
  {
    var main := CutAt(s, '+');
    var core := CutAt(main.0, '-');
    var numbers :- ParseCore(core.0);
    var prerelease :- PrereleaseOf(core.1);
    var build :- BuildOf(main.1);
    Some(Version(numbers.0, numbers.1, numbers.2, prerelease, build))
  }

  /** The longest text the `semver` package attempts to parse. */
  const MaxLength := 256

  /** `Number.MAX_SAFE_INTEGER`: the package rejects a larger major, minor or
      patch number. */
  const MaxSafeInteger := 9_007_199_254_740_991

  predicate InRange(v: Version) {
    v.major <= MaxSafeInteger && v.minor <= MaxSafeInteger && v.patch <= MaxSafeInteger
  }

  /** `semver.parse`: None for text longer than `MaxLength`, text outside
      the grammar, and a version number above `MaxSafeInteger`. */
  function Parse(s: string): (r: Option<Version>)
    ensures r.Some? ==> |s| <= MaxLength && WellFormed(r.value) && InRange(r.value)
    ensures r.Some? ==> ParseText(s) == r
    ensures |s| <= MaxLength && ParseText(s).Some? && InRange(ParseText(s).value) ==> r.Some?
  {
    if |s| > MaxLength then None
    else
      var v :- ParseText(s);
      if InRange(v) then Some(v) else None
  }

  // ---------------------------------------------------------------- formatting

  function IdentifierText(id: Identifier): string
  {
    match id
    case Numeric(n) => Numeral(n)
    case AlphaNumeric(s) => s
  }

  function Texts(ids: seq<Identifier>): (r: seq<string>)
    ensures |r| == |ids|
    ensures forall i :: 0 <= i < |ids| ==> r[i] == IdentifierText(ids[i])
  {
    if |ids| == 0 then [] else [IdentifierText(ids[0])] + Texts(ids[1..])
  }

  function CoreText(v: Version): string
  {
    Join([Numeral(v.major), Numeral(v.minor), Numeral(v.patch)], '.')
  }

  function PrereleaseText(v: Version): string
  {
    if |v.prerelease| == 0 then "" else "-" + Join(Texts(v.prerelease), '.')
  }

  function BuildText(v: Version): string
  {
    if |v.build| == 0 then "" else "+" + Join(v.build, '.')
  }

  /** The canonical spelling of a version: in a well-formed version, build
      metadata is what follows the one `+`. */
  function Format(v: Version): (r: string)
    ensures WellFormed(v) ==> ('+' in r <==> |v.build| > 0)
  {
    PlusMarksBuild(v);
    CoreText(v) + PrereleaseText(v) + BuildText(v)
  }

  lemma NumeralAvoids(n: nat, c: char)
    requires !IsDigit(c)
    ensures c !in Numeral(n)
  {
  }

  lemma IdentifierCharsAvoid(s: string, c: char)
    requires AllIdentifierChars(s) && !IsIdentifierChar(c)
    ensures c !in s
  {
  }

  lemma CoreTextAvoids(v: Version, c: char)
    requires !IsDigit(c) && c != '.'
    ensures c !in CoreText(v)
  {
    NumeralAvoids(v.major, c);
    NumeralAvoids(v.minor, c);
    NumeralAvoids(v.patch, c);
    JoinAvoids([Numeral(v.major), Numeral(v.minor), Numeral(v.patch)], '.', c);
  }

  lemma TextAvoids(id: Identifier, c: char)
    requires IsPrereleaseIdentifier(id) && !IsIdentifierChar(c)
    ensures c !in IdentifierText(id)
  {
    match id
    case Numeric(n) => NumeralAvoids(n, c);
    case AlphaNumeric(s) => IdentifierCharsAvoid(s, c);
  }

  lemma TextsAvoid(ids: seq<Identifier>, c: char)
    requires forall i :: 0 <= i < |ids| ==> IsPrereleaseIdentifier(ids[i])
    requires !IsIdentifierChar(c)
    ensures forall p :: p in Texts(ids) ==> c !in p
  {
    forall p | p in Texts(ids)
      ensures c !in p
    {
      var i :| 0 <= i < |Texts(ids)| && Texts(ids)[i] == p;
      TextAvoids(ids[i], c);
    }
  }

  lemma BuildAvoids(build: seq<string>, c: char)
    requires forall i :: 0 <= i < |build| ==> IsBuildIdentifier(build[i])
    requires !IsIdentifierChar(c)
    ensures forall p :: p in build ==> c !in p
  {
    forall p | p in build
      ensures c !in p
    {
      var i :| 0 <= i < |build| && build[i] == p;
      IdentifierCharsAvoid(p, c);
    }
  }

  lemma ParseIdentifierText(id: Identifier)
    requires IsPrereleaseIdentifier(id)
    ensures ParseIdentifier(IdentifierText(id)) == Some(id)
  {
    match id
    case Numeric(n) =>
      var s := Numeral(n);
      assert AllIdentifierChars(s) by {
        forall i | 0 <= i < |s| ensures IsIdentifierChar(s[i]) {
          assert IsDigit(s[i]);
        }
      }
    case AlphaNumeric(s) =>
  }

  lemma {:induction false} ParsePrereleaseTexts(ids: seq<Identifier>)
    requires forall i :: 0 <= i < |ids| ==> IsPrereleaseIdentifier(ids[i])
    ensures ParsePrerelease(Texts(ids)) == Some(ids)
    decreases |ids|
  {
    if |ids| > 0 {
      var texts := Texts(ids);
      assert texts[0] == IdentifierText(ids[0]);
      assert texts[1..] == Texts(ids[1..]);
      ParseIdentifierText(ids[0]);
      ParsePrereleaseTexts(ids[1..]);
      assert ParsePrerelease(texts) == Some([ids[0]] + ids[1..]);
      assert ids == [ids[0]] + ids[1..];
    }
  }

  lemma ParseCoreText(v: Version)
    ensures ParseCore(CoreText(v)) == Some((v.major, v.minor, v.patch))
  {
    var parts := [Numeral(v.major), Numeral(v.minor), Numeral(v.patch)];
    NumeralAvoids(v.major, '.');
    NumeralAvoids(v.minor, '.');
    NumeralAvoids(v.patch, '.');
    SplitJoin(parts, '.');
  }

  lemma CutAtIs(s: string, sep: char, before: string, after: string)
    requires sep !in before
    requires s == before + [sep] + after
    ensures CutAt(s, sep) == (before, Some(after))
  {
    assert s[..|before|] == before;
    IndexOfIs(s, sep, |before|);
    assert s[|before| + 1..] == after;
  }

  lemma PlusMarksBuild(v: Version)
    ensures WellFormed(v) ==> ('+' in CoreText(v) + PrereleaseText(v) + BuildText(v) <==> |v.build| > 0)
  {
    if WellFormed(v) {
      CoreTextAvoids(v, '+');
      if |v.prerelease| > 0 {
        TextsAvoid(v.prerelease, '+');
        JoinAvoids(Texts(v.prerelease), '.', '+');
      }
      var main := CoreText(v) + PrereleaseText(v);
      assert '+' !in main;
      if |v.build| > 0 {
        assert (main + BuildText(v))[|main|] == '+';
      } else {
        assert main + BuildText(v) == main;
      }
    }
  }

  /** Every well-formed version is read back from its canonical spelling
      in the grammar. */
  lemma ParseTextFormat(v: Version)
    requires WellFormed(v)
    ensures ParseText(Format(v)) == Some(v)
  {
    var core := CoreText(v);
    var main := core + PrereleaseText(v);
    CoreTextAvoids(v, '+');
    CoreTextAvoids(v, '-');
    if |v.prerelease| == 0 {
      assert main == core;
    } else {
      TextsAvoid(v.prerelease, '+');
      TextsAvoid(v.prerelease, '.');
      JoinAvoids(Texts(v.prerelease), '.', '+');
      assert main == core + ['-'] + Join(Texts(v.prerelease), '.');
      CutAtIs(main, '-', core, Join(Texts(v.prerelease), '.'));
      SplitJoin(Texts(v.prerelease), '.');
      ParsePrereleaseTexts(v.prerelease);
    }
    assert '+' !in main;
    if |v.build| == 0 {
      assert Format(v) == main;
    } else {
      BuildAvoids(v.build, '.');
      assert Format(v) == main + ['+'] + Join(v.build, '.');
      CutAtIs(Format(v), '+', main, Join(v.build, '.'));
      SplitJoin(v.build, '.');
    }
    ParseCoreText(v);
  }

  /** A version the package can hold is read back from its canonical
      spelling, as long as that spelling is within the length limit. */
  lemma ParseFormat(v: Version)
    requires WellFormed(v) && InRange(v) && |Format(v)| <= MaxLength
    ensures Parse(Format(v)) == Some(v)
  {
    ParseTextFormat(v);
  }

  lemma {:induction false} TextsOfParsed(parts: seq<string>)
    requires ParsePrerelease(parts).Some?
    ensures Texts(ParsePrerelease(parts).value) == parts
    decreases |parts|
  {
    if |parts| > 0 {
      var id := ParseIdentifier(parts[0]).value;
      if id.Numeric? {
        NumeralOfValue(parts[0]);
      }
      TextsOfParsed(parts[1..]);
      assert parts == [parts[0]] + parts[1..];
    }
  }

  lemma CutAtRejoins(s: string, sep: char)
    ensures CutAt(s, sep).1.None? ==> CutAt(s, sep).0 == s
    ensures CutAt(s, sep).1.Some? ==> s == CutAt(s, sep).0 + [sep] + CutAt(s, sep).1.value
  {
    if sep in s {
      var i := IndexOf(s, sep);
      assert s == s[..i] + [sep] + s[i + 1..];
    }
  }

  lemma CoreOfParsed(core: string)
    requires ParseCore(core).Some?
    ensures var n := ParseCore(core).value;
      Join([Numeral(n.0), Numeral(n.1), Numeral(n.2)], '.') == core
  {
    var parts := Split(core, '.');
    NumeralOfValue(parts[0]);
    NumeralOfValue(parts[1]);
    NumeralOfValue(parts[2]);
    assert parts == [parts[0], parts[1], parts[2]];
    JoinSplit(core, '.');
  }

  lemma PrereleaseOfParsed(pre: string)
    requires ParsePrerelease(Split(pre, '.')).Some?
    ensures var ids := ParsePrerelease(Split(pre, '.')).value;
      |ids| > 0 && Join(Texts(ids), '.') == pre
  {
    TextsOfParsed(Split(pre, '.'));
    JoinSplit(pre, '.');
  }

  lemma BuildOfParsed(build: string)
    requires ParseBuild(Split(build, '.')).Some?
    ensures var ids := ParseBuild(Split(build, '.')).value;
      |ids| > 0 && Join(ids, '.') == build
  {
    JoinSplit(build, '.');
  }

  /** The numbers are spelled as they were written. */
  lemma CoreTextOfParsed(core: string, v: Version)
    requires ParseCore(core).Some?
    requires var n := ParseCore(core).value; v.major == n.0 && v.minor == n.1 && v.patch == n.2
    ensures CoreText(v) == core
  {
    CoreOfParsed(core);
  }

  /** The pre-release is spelled as it was written. */
  lemma PrereleaseTextOfParsed(pre: Option<string>, v: Version)
    requires PrereleaseOf(pre).Some? && v.prerelease == PrereleaseOf(pre).value
    ensures PrereleaseText(v) == if pre.Some? then "-" + pre.value else ""
  {
    if pre.Some? {
      PrereleaseOfParsed(pre.value);
    }
  }

  /** The part of a version string before any `+` is the spelling of the
      numbers and pre-release it denotes. */
  lemma MainOfParsed(core: string, pre: Option<string>, v: Version)
    requires ParseCore(core).Some? && PrereleaseOf(pre).Some?
    requires var n := ParseCore(core).value;
      v.major == n.0 && v.minor == n.1 && v.patch == n.2 && v.prerelease == PrereleaseOf(pre).value
    ensures CoreText(v) + PrereleaseText(v) == if pre.Some? then core + ['-'] + pre.value else core
  {
    CoreTextOfParsed(core, v);
    PrereleaseTextOfParsed(pre, v);
    if pre.Some? {
      assert core + ("-" + pre.value) == core + ['-'] + pre.value;
    }
  }

  /** The build metadata is spelled as it was written. */
  lemma BuildTextOfParsed(build: Option<string>, v: Version)
    requires BuildOf(build).Some? && v.build == BuildOf(build).value
    ensures BuildText(v) == if build.Some? then "+" + build.value else ""
  {
    if build.Some? {
      BuildOfParsed(build.value);
    }
  }

  /** The parts a version string is cut into, and the version they denote. */
  lemma ParsedParts(s: string)
    requires ParseText(s).Some?
    ensures var main := CutAt(s, '+');
      var core := CutAt(main.0, '-');
      && ParseCore(core.0).Some? && PrereleaseOf(core.1).Some? && BuildOf(main.1).Some?
      && ParseText(s).value == Version(ParseCore(core.0).value.0, ParseCore(core.0).value.1, ParseCore(core.0).value.2,
                                   PrereleaseOf(core.1).value, BuildOf(main.1).value)
  {
  }

  /** Spelling a version whose parts are spelled as written gives back the
      text they were cut from. */
  lemma Rejoined(s: string, main: string, build: Option<string>, v: Version)
    requires CoreText(v) + PrereleaseText(v) == main
    requires BuildText(v) == if build.Some? then "+" + build.value else ""
    requires if build.Some? then s == main + ['+'] + build.value else s == main
    ensures Format(v) == s
  {
    if build.Some? {
      assert main + ("+" + build.value) == main + ['+'] + build.value;
    }
  }

  /** A version string is the canonical spelling of the version it denotes. */
  lemma FormatParse(s: string)
    requires Parse(s).Some?
    ensures Format(Parse(s).value) == s
  {
    var v := ParseText(s).value;
    var main := CutAt(s, '+');
    var core := CutAt(main.0, '-');
    ParsedParts(s);
    MainOfParsed(core.0, core.1, v);
    CutAtRejoins(main.0, '-');
    BuildTextOfParsed(main.1, v);
    CutAtRejoins(s, '+');
    Rejoined(s, main.0, main.1, v);
  }

  // ---------------------------------------------------------------- precedence

  /** The properties of a three-way comparison that make it a total order. */
  ghost predicate IsComparator<T(!new)>(cmp: (T, T) -> int) {
    && (forall x, y :: cmp(x, y) == -cmp(y, x))
    && (forall x, y :: cmp(x, y) == 0 <==> x == y)
    && (forall x, y, z :: cmp(x, y) == 1 && cmp(y, z) == 1 ==> cmp(x, z) == 1)
  }

  /** Lexicographic comparison under `cmp`; a proper prefix is smaller. */
  function Lex<T>(a: seq<T>, b: seq<T>, cmp: (T, T) -> int): int
  {
    if |a| == 0 then (if |b| == 0 then 0 else -1)
    else if |b| == 0 then 1
    else if cmp(a[0], b[0]) != 0 then cmp(a[0], b[0])
    else Lex(a[1..], b[1..], cmp)
  }

  lemma {:induction false} LexAntisymmetric<T(!new)>(a: seq<T>, b: seq<T>, cmp: (T, T) -> int)
    requires IsComparator(cmp)
    ensures Lex(a, b, cmp) == -Lex(b, a, cmp)
    decreases |a|
  {
    if |a| > 0 && |b| > 0 && cmp(a[0], b[0]) == 0 {
      LexAntisymmetric(a[1..], b[1..], cmp);
    }
  }

  lemma {:induction false} LexZero<T(!new)>(a: seq<T>, b: seq<T>, cmp: (T, T) -> int)
    requires IsComparator(cmp)
    ensures Lex(a, b, cmp) == 0 <==> a == b
    decreases |a|
  {
    if |a| > 0 && |b| > 0 && cmp(a[0], b[0]) == 0 {
      LexZero(a[1..], b[1..], cmp);
      assert a == [a[0]] + a[1..];
      assert b == [b[0]] + b[1..];
    }
  }

  lemma {:induction false} LexTransitive<T(!new)>(a: seq<T>, b: seq<T>, c: seq<T>, cmp: (T, T) -> int)
    requires IsComparator(cmp)
    requires Lex(a, b, cmp) == 1 && Lex(b, c, cmp) == 1
    ensures Lex(a, c, cmp) == 1
    decreases |a|
  {
    if |c| > 0 {
      if cmp(a[0], b[0]) == 0 && cmp(b[0], c[0]) == 0 {
        LexTransitive(a[1..], b[1..], c[1..], cmp);
      }
    }
  }

  function CompareNat(a: nat, b: nat): int
  {
    if a < b then -1 else if a > b then 1 else 0
  }

  function CompareChar(a: char, b: char): int
  {
    if a < b then -1 else if a > b then 1 else 0
  }

  /** Section 11.4.1 to 11.4.3: numeric identifiers by value, numeric below
      alphanumeric, alphanumeric identifiers in ASCII order. */
  function CompareIdentifier(a: Identifier, b: Identifier): int
  {
    match (a, b)
    case (Numeric(x), Numeric(y)) => CompareNat(x, y)
    case (Numeric(_), AlphaNumeric(_)) => -1
    case (AlphaNumeric(_), Numeric(_)) => 1
    case (AlphaNumeric(x), AlphaNumeric(y)) => Lex(x, y, CompareChar)
  }

  /** Section 11.3 and 11.4: a version without pre-release identifiers is
      above one with them; otherwise identifiers compare left to right. */
  function ComparePrerelease(a: seq<Identifier>, b: seq<Identifier>): int
  {
    if |a| == 0 && |b| == 0 then 0
    else if |a| == 0 then 1
    else if |b| == 0 then -1
    else Lex(a, b, CompareIdentifier)
  }

  /** Precedence of `a` against `b`: -1 below, 0 equal, 1 above. Build
      metadata does not take part (section 10 and 11.1). */
  function Compare(a: Version, b: Version): (r: int)
    ensures -1 <= r <= 1
  {
    CompareIdentifierInRange();
    LexInRange(a.prerelease, b.prerelease, CompareIdentifier);
    if a.major != b.major then CompareNat(a.major, b.major)
    else if a.minor != b.minor then CompareNat(a.minor, b.minor)
    else if a.patch != b.patch then CompareNat(a.patch, b.patch)
    else ComparePrerelease(a.prerelease, b.prerelease)
  }

  /** `a` has strictly higher precedence than `b`. */
  predicate Newer(a: Version, b: Version) {
    Compare(a, b) == 1
  }

  /** Equal precedence: the same version up to build metadata. */
  predicate SamePrecedence(a: Version, b: Version) {
    a.(build := []) == b.(build := [])
  }

  lemma {:induction false} LexInRange<T>(a: seq<T>, b: seq<T>, cmp: (T, T) -> int)
    requires forall x, y :: -1 <= cmp(x, y) <= 1
    ensures -1 <= Lex(a, b, cmp) <= 1
    decreases |a|
  {
    if |a| > 0 && |b| > 0 && cmp(a[0], b[0]) == 0 {
      LexInRange(a[1..], b[1..], cmp);
    }
  }

  lemma CompareIdentifierInRange()
    ensures forall x, y :: -1 <= CompareIdentifier(x, y) <= 1
  {
    forall x: Identifier, y: Identifier
      ensures -1 <= CompareIdentifier(x, y) <= 1
    {
      if x.AlphaNumeric? && y.AlphaNumeric? {
        LexInRange(x.s, y.s, CompareChar);
      }
    }
  }

  lemma CompareCharIsComparator()
    ensures IsComparator(CompareChar)
  {
  }

  lemma CompareIdentifierIsComparator()
    ensures IsComparator(CompareIdentifier)
  {
    CompareCharIsComparator();
    forall x: Identifier, y: Identifier
      ensures CompareIdentifier(x, y) == -CompareIdentifier(y, x)
      ensures CompareIdentifier(x, y) == 0 <==> x == y
    {
      if x.AlphaNumeric? && y.AlphaNumeric? {
        LexAntisymmetric(x.s, y.s, CompareChar);
        LexZero(x.s, y.s, CompareChar);
      }
    }
    forall x: Identifier, y: Identifier, z: Identifier
      | CompareIdentifier(x, y) == 1 && CompareIdentifier(y, z) == 1
      ensures CompareIdentifier(x, z) == 1
    {
      if x.AlphaNumeric? && y.AlphaNumeric? && z.AlphaNumeric? {
        LexTransitive(x.s, y.s, z.s, CompareChar);
      }
    }
  }

  /** Precedence is antisymmetric: `a` is above `b` exactly when `b` is below `a`. */
  lemma CompareAntisymmetric(a: Version, b: Version)
    ensures Compare(a, b) == -Compare(b, a)
  {
    CompareIdentifierIsComparator();
    LexAntisymmetric(a.prerelease, b.prerelease, CompareIdentifier);
  }

  /** Two versions have equal precedence exactly when they differ at most in
      build metadata. */
  lemma CompareZero(a: Version, b: Version)
    ensures Compare(a, b) == 0 <==> SamePrecedence(a, b)
  {
    CompareIdentifierIsComparator();
    LexZero(a.prerelease, b.prerelease, CompareIdentifier);
  }

  /** Precedence is transitive. */
  lemma CompareTransitive(a: Version, b: Version, c: Version)
    requires Newer(a, b) && Newer(b, c)
    ensures Newer(a, c)
  {
    if a.major == b.major == c.major && a.minor == b.minor == c.minor && a.patch == b.patch == c.patch {
      CompareIdentifierIsComparator();
      if |a.prerelease| > 0 && |b.prerelease| > 0 && |c.prerelease| > 0 {
        LexTransitive(a.prerelease, b.prerelease, c.prerelease, CompareIdentifier);
      }
    }
  }

  /** Section 11.3: a pre-release version is below the associated normal version. */
  lemma PrereleaseBelowRelease(v: Version)
    requires |v.prerelease| > 0
    ensures Compare(v, v.(prerelease := [])) == -1
  {
  }

  /** The worked cases of the update check: 1.2.0 is newer than 1.1.0;
      1.1.0 and 1.0.9 are not. */
  lemma UpdateExamples()
    ensures Newer(Version(1, 2, 0, [], []), Version(1, 1, 0, [], []))
    ensures !Newer(Version(1, 1, 0, [], []), Version(1, 1, 0, [], []))
    ensures !Newer(Version(1, 0, 9, [], []), Version(1, 1, 0, [], []))
  {
  }
}
