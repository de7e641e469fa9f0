/**
 * Release versions: the parser and the order of the Admin
 * (admin-web/src/services/system-updates.js), those of the host updater
 * (scripts/updater/releases.py), and the precedence both mean, section 11 of Semantic
 * Versioning 2.0.0.
 */
module Versions {
  import opened Outcomes

  // ----- strings

  predicate IsDigit(c: char) { '0' <= c <= '9' }

  function DigitValue(c: char): (d: nat)
    requires IsDigit(c)
    ensures d <= 9
  {
    c as int - '0' as int
  }

  predicate Digits(s: string) {
    s != "" && forall c | c in s :: IsDigit(c)
  }

  /** A numeral without superfluous zeroes. */
  predicate Numeral(s: string) {
    Digits(s) && (|s| > 1 ==> s[0] != '0')
  }

  predicate Identifiers(s: string) {
    s != "" && forall c | c in s :: IsDigit(c) || 'A' <= c <= 'Z' || 'a' <= c <= 'z' || c == '.' || c == '-'
  }

  function Value(s: string): nat
    requires forall c | c in s :: IsDigit(c)
  {
    if s == "" then 0 else 10 * Value(s[..|s| - 1]) + DigitValue(s[|s| - 1])
  }

  function Split(s: string, separator: char): (parts: seq<string>)
    ensures parts != []
  {
    if s == "" then [""]
    else
      var rest := Split(s[1..], separator);
      if s[0] == separator then [""] + rest else [[s[0]] + rest[0]] + rest[1..]
  }

  /** Where the first of the two characters stands, or the length of the string. */
  function IndexOf(s: string, a: char, b: char): (k: nat)
    ensures k <= |s|
    ensures forall i | 0 <= i < k :: s[i] != a && s[i] != b
    ensures k < |s| ==> s[k] == a || s[k] == b
  {
    if s == "" || s[0] == a || s[0] == b then 0 else 1 + IndexOf(s[1..], a, b)
  }

  /** The order of strings by character code. */
  function CompareStrings(a: string, b: string): (r: int)
    ensures -1 <= r <= 1
  {
    if a == "" then (if b == "" then 0 else -1)
    else if b == "" then 1
    else if a[0] != b[0] then (if a[0] < b[0] then -1 else 1)
    else CompareStrings(a[1..], b[1..])
  }

  lemma {:induction false} StringsOrdered(a: string, b: string)
    ensures CompareStrings(a, b) == 0 <==> a == b
    ensures CompareStrings(b, a) == -CompareStrings(a, b)
  {
    if a != "" && b != "" && a[0] == b[0] {
      StringsOrdered(a[1..], b[1..]);
      assert a == [a[0]] + a[1..] && b == [b[0]] + b[1..];
    }
  }

  lemma {:induction false} StringsTransitive(a: string, b: string, c: string)
    requires CompareStrings(a, b) <= 0 && CompareStrings(b, c) <= 0
    ensures CompareStrings(a, c) <= 0
  {
    if a != "" && b != "" && c != "" && a[0] == b[0] == c[0] {
      StringsTransitive(a[1..], b[1..], c[1..]);
    }
  }

  lemma LastDigit(s: string)
    requires Digits(s)
    ensures IsDigit(s[|s| - 1]) && forall c | c in s[..|s| - 1] :: IsDigit(c)
    ensures Value(s) == 10 * Value(s[..|s| - 1]) + DigitValue(s[|s| - 1])
  {
    assert s[|s| - 1] in s;
  }

  /** Numerals without superfluous zeroes are equal as soon as their values are. */
  lemma {:induction false} NumeralsAreUnique(a: string, b: string)
    requires Numeral(a) && Numeral(b) && Value(a) == Value(b)
    ensures a == b
  {
    NumeralSize(a);
    NumeralSize(b);
    LastDigit(a);
    LastDigit(b);
    var i, j := a[..|a| - 1], b[..|b| - 1];
    assert a == i + [a[|a| - 1]] && b == j + [b[|b| - 1]];
    if |a| > 1 {
      assert i[0] == a[0] && j[0] == b[0];
      NumeralsAreUnique(i, j);
    }
  }

  lemma {:induction false} NumeralSize(a: string)
    requires Numeral(a)
    ensures |a| == 1 <==> Value(a) < 10
    ensures a[0] != '0' ==> Value(a) > 0
  {
    var i := a[..|a| - 1];
    LastDigit(a);
    if |a| > 1 {
      assert i[0] == a[0];
      NumeralSize(i);
    }
  }

  // ----- keys

  /** A prerelease identifier: numeric ones come first. */
  datatype Identifier = Numeric(n: nat) | Alphanumeric(s: string)

  /** `version_key`: core, whether it is a final release, prerelease identifiers. */
  datatype Key = Key(major: nat, minor: nat, patch: nat, final: bool, prerelease: seq<Identifier>)

  function CompareInts(a: int, b: int): int {
    if a < b then -1 else if a > b then 1 else 0
  }

  function CompareIdentifiers(a: Identifier, b: Identifier): int {
    match (a, b)
    case (Numeric(n), Numeric(m)) => CompareInts(n, m)
    case (Numeric(_), Alphanumeric(_)) => -1
    case (Alphanumeric(_), Numeric(_)) => 1
    case (Alphanumeric(s), Alphanumeric(t)) => CompareStrings(s, t)
  }

  /** Python's order of tuples. */
  function CompareLists(a: seq<Identifier>, b: seq<Identifier>): int {
    if a == [] then (if b == [] then 0 else -1)
    else if b == [] then 1
    else
      var c := CompareIdentifiers(a[0], b[0]);
      if c != 0 then c else CompareLists(a[1..], b[1..])
  }

  function CompareKeys(a: Key, b: Key): int {
    if a.major != b.major then CompareInts(a.major, b.major)
    else if a.minor != b.minor then CompareInts(a.minor, b.minor)
    else if a.patch != b.patch then CompareInts(a.patch, b.patch)
    else if a.final != b.final then (if b.final then -1 else 1)
    else CompareLists(a.prerelease, b.prerelease)
  }

  lemma IdentifiersOrdered(a: Identifier, b: Identifier)
    ensures CompareIdentifiers(a, b) == 0 <==> a == b
    ensures CompareIdentifiers(b, a) == -CompareIdentifiers(a, b)
    ensures -1 <= CompareIdentifiers(a, b) <= 1
  {
    if a.Alphanumeric? && b.Alphanumeric? {
      StringsOrdered(a.s, b.s);
    }
  }

  lemma IdentifiersTransitive(a: Identifier, b: Identifier, c: Identifier)
    requires CompareIdentifiers(a, b) <= 0 && CompareIdentifiers(b, c) <= 0
    ensures CompareIdentifiers(a, c) <= 0
  {
    if a.Alphanumeric? && b.Alphanumeric? && c.Alphanumeric? {
      StringsTransitive(a.s, b.s, c.s);
    }
  }

  lemma {:induction false} ListsOrdered(a: seq<Identifier>, b: seq<Identifier>)
    ensures CompareLists(a, b) == 0 <==> a == b
    ensures CompareLists(b, a) == -CompareLists(a, b)
    ensures -1 <= CompareLists(a, b) <= 1
  {
    if a != [] && b != [] {
      IdentifiersOrdered(a[0], b[0]);
      ListsOrdered(a[1..], b[1..]);
      assert a == [a[0]] + a[1..] && b == [b[0]] + b[1..];
    }
  }

  lemma {:induction false} ListsTransitive(a: seq<Identifier>, b: seq<Identifier>, c: seq<Identifier>)
    requires CompareLists(a, b) <= 0 && CompareLists(b, c) <= 0
    ensures CompareLists(a, c) <= 0
  {
    if a != [] && b != [] && c != [] {
      IdentifiersOrdered(a[0], b[0]);
      IdentifiersOrdered(b[0], c[0]);
      IdentifiersOrdered(a[0], c[0]);
      IdentifiersTransitive(a[0], b[0], c[0]);
      if a[0] == b[0] == c[0] {
        ListsTransitive(a[1..], b[1..], c[1..]);
      }
    }
  }

  /** The order of keys is total. */
  lemma KeysOrdered(a: Key, b: Key, c: Key)
    ensures CompareKeys(a, b) == 0 <==> a == b
    ensures CompareKeys(b, a) == -CompareKeys(a, b)
    ensures CompareKeys(a, b) <= 0 && CompareKeys(b, c) <= 0 ==> CompareKeys(a, c) <= 0
  {
    ListsOrdered(a.prerelease, b.prerelease);
    ListsOrdered(b.prerelease, c.prerelease);
    if CompareLists(a.prerelease, b.prerelease) <= 0 && CompareLists(b.prerelease, c.prerelease) <= 0 {
      ListsTransitive(a.prerelease, b.prerelease, c.prerelease);
    }
  }

  // ----- precedence as section 11 of Semantic Versioning 2.0.0 states it

  predicate IdentifierPrecedes(a: Identifier, b: Identifier) {
    || (a.Numeric? && b.Numeric? && a.n < b.n)
    || (a.Numeric? && b.Alphanumeric?)
    || (a.Alphanumeric? && b.Alphanumeric? && StringPrecedes(a.s, b.s))
  }

  /** The first difference decides; a proper prefix comes first. */
  predicate StringPrecedes(a: string, b: string) {
    exists k | 0 <= k <= |a| && k <= |b| :: a[..k] == b[..k] && k < |b| && (k == |a| || a[k] < b[k])
  }

  predicate ListPrecedes(a: seq<Identifier>, b: seq<Identifier>) {
    exists k | 0 <= k <= |a| && k <= |b| :: a[..k] == b[..k] && k < |b| && (k == |a| || IdentifierPrecedes(a[k], b[k]))
  }

  predicate Precedes(a: Key, b: Key) {
    || a.major < b.major
    || (a.major == b.major && a.minor < b.minor)
    || (a.major == b.major && a.minor == b.minor && a.patch < b.patch)
    || (a.major == b.major && a.minor == b.minor && a.patch == b.patch
        && ((!a.final && b.final) || (a.final == b.final && ListPrecedes(a.prerelease, b.prerelease))))
  }

  lemma PrefixesDiffer<T>(a: seq<T>, b: seq<T>)
    requires a == [] || b == [] || a[0] != b[0]
    ensures forall k | 0 < k <= |a| && k <= |b| :: a[..k] != b[..k]
  {
    forall k | 0 < k <= |a| && k <= |b| ensures a[..k] != b[..k] {
      assert a[..k][0] == a[0] && b[..k][0] == b[0];
    }
  }

  lemma StringPrecedesBehind(a: string, b: string)
    requires a != "" && b != "" && a[0] == b[0]
    ensures StringPrecedes(a, b) <==> StringPrecedes(a[1..], b[1..])
  {
    var a', b' := a[1..], b[1..];
    if StringPrecedes(a', b') {
      var k :| 0 <= k <= |a'| && k <= |b'| && a'[..k] == b'[..k] && k < |b'| && (k == |a'| || a'[k] < b'[k]);
      assert a[..k + 1] == [a[0]] + a'[..k] && b[..k + 1] == [b[0]] + b'[..k];
    }
    if StringPrecedes(a, b) {
      var k :| 0 <= k <= |a| && k <= |b| && a[..k] == b[..k] && k < |b| && (k == |a| || a[k] < b[k]);
      assert a'[..k - 1] == a[..k][1..] && b'[..k - 1] == b[..k][1..];
    }
  }

  lemma StringPrecedesAtOnce(a: string, b: string)
    requires a == "" || b == "" || a[0] != b[0]
    ensures StringPrecedes(a, b) <==> b != "" && (a == "" || a[0] < b[0])
  {
    PrefixesDiffer(a, b);
    assert a[..0] == b[..0];
  }

  lemma {:induction false} StringsAgree(a: string, b: string)
    ensures CompareStrings(a, b) < 0 <==> StringPrecedes(a, b)
  {
    if a != "" && b != "" && a[0] == b[0] {
      StringsAgree(a[1..], b[1..]);
      StringPrecedesBehind(a, b);
    } else {
      StringPrecedesAtOnce(a, b);
    }
  }

  lemma ListPrecedesBehind(a: seq<Identifier>, b: seq<Identifier>)
    requires a != [] && b != [] && a[0] == b[0]
    ensures ListPrecedes(a, b) <==> ListPrecedes(a[1..], b[1..])
  {
    var a', b' := a[1..], b[1..];
    if ListPrecedes(a', b') {
      var k :| 0 <= k <= |a'| && k <= |b'| && a'[..k] == b'[..k] && k < |b'|
        && (k == |a'| || IdentifierPrecedes(a'[k], b'[k]));
      assert a[..k + 1] == [a[0]] + a'[..k] && b[..k + 1] == [b[0]] + b'[..k];
      assert k < |a'| ==> a[k + 1] == a'[k];
      assert b[k + 1] == b'[k];
    }
    if ListPrecedes(a, b) {
      var k :| 0 <= k <= |a| && k <= |b| && a[..k] == b[..k] && k < |b| && (k == |a| || IdentifierPrecedes(a[k], b[k]));
      NothingPrecedesItself(a[0]);
      assert a'[..k - 1] == a[..k][1..] && b'[..k - 1] == b[..k][1..];
    }
  }

  lemma ListPrecedesAtOnce(a: seq<Identifier>, b: seq<Identifier>)
    requires a == [] || b == [] || a[0] != b[0]
    ensures ListPrecedes(a, b) <==> b != [] && (a == [] || IdentifierPrecedes(a[0], b[0]))
  {
    PrefixesDiffer(a, b);
    assert a[..0] == b[..0];
  }

  lemma {:induction false} ListsAgree(a: seq<Identifier>, b: seq<Identifier>)
    ensures CompareLists(a, b) < 0 <==> ListPrecedes(a, b)
  {
    if a != [] && b != [] {
      IdentifiersOrdered(a[0], b[0]);
      if a[0].Alphanumeric? && b[0].Alphanumeric? {
        StringsAgree(a[0].s, b[0].s);
      }
    }
    if a != [] && b != [] && a[0] == b[0] {
      ListsAgree(a[1..], b[1..]);
      ListPrecedesBehind(a, b);
    } else {
      ListPrecedesAtOnce(a, b);
    }
  }

  lemma NothingPrecedesItself(a: Identifier)
    ensures !IdentifierPrecedes(a, a)
  {
    if a.Alphanumeric? {
      StringsOrdered(a.s, a.s);
      StringsAgree(a.s, a.s);
    }
  }

  /** The order of keys is the standard's precedence. */
  lemma KeysFollowTheStandard(a: Key, b: Key)
    ensures CompareKeys(a, b) < 0 <==> Precedes(a, b)
  {
    ListsAgree(a.prerelease, b.prerelease);
  }

  // ----- parsing

  /** The groups that a regular expression captures. */
  datatype Groups = Groups(major: string, minor: string, patch: string, prerelease: Option<string>,
                           build: Option<string>)

  function Core(g: Groups): string {
    g.major + "." + g.minor + "." + g.patch
  }

  function Tail(g: Groups): string {
    (if g.prerelease.Some? then "-" + g.prerelease.value else "") + (if g.build.Some? then "+" + g.build.value else "")
  }

  predicate Shaped(g: Groups) {
    && Numeral(g.major) && Numeral(g.minor) && Numeral(g.patch)
    && (g.prerelease.Some? ==> Identifiers(g.prerelease.value)) && (g.build.Some? ==> Identifiers(g.build.value))
  }

  /** The regular expression of the updater, anchored at both ends. */
  ghost predicate UpdaterMatches(s: string, g: Groups) {
    Shaped(g) && s == Core(g) + Tail(g)
  }

  /** The regular expression of the Admin, which allows a leading `v`. */
  ghost predicate AdminMatches(s: string, g: Groups) {
    Shaped(g) && (s == Core(g) + Tail(g) || s == "v" + (Core(g) + Tail(g)))
  }

  predicate PartOk(part: string) {
    part != "" && !(Digits(part) && |part| > 1 && part[0] == '0')
  }

  /** Neither an empty prerelease identifier nor a numeric one with leading zeroes. */
  predicate PartsOk(g: Groups) {
    g.prerelease.Some? ==> forall part | part in Split(g.prerelease.value, '.') :: PartOk(part)
  }

  /** No empty build identifier. */
  predicate BuildOk(g: Groups) {
    g.build.Some? ==> "" !in Split(g.build.value, '.')
  }

  function MatchTail(tail: string): Option<(Option<string>, Option<string>)> {
    if tail == "" then Some((None, None))
    else if tail[0] == '+' then (if Identifiers(tail[1..]) then Some((None, Some(tail[1..]))) else None)
    else if tail[0] != '-' then None
    else
      var j := IndexOf(tail, '+', '+');
      var build := if j == |tail| then None else Some(tail[j + 1..]);
      if j == 0 || !Identifiers(tail[1..j]) || (build.Some? && !Identifiers(build.value)) then None
      else Some((Some(tail[1..j]), build))
  }

  /** The only way a version without a leading `v` can match. */
  function Match(s: string): (r: Option<Groups>)
    ensures r.Some? ==> Shaped(r.value)
  {
    var k := IndexOf(s, '-', '+');
    var core, tail := Split(s[..k], '.'), MatchTail(s[k..]);
    if |core| != 3 || !Numeral(core[0]) || !Numeral(core[1]) || !Numeral(core[2]) || tail.None? then None
    else Some(Groups(core[0], core[1], core[2], tail.value.0, tail.value.1))
  }

  function Join(parts: seq<string>, separator: char): string
    requires parts != []
  {
    if |parts| == 1 then parts[0] else parts[0] + [separator] + Join(parts[1..], separator)
  }

  lemma {:induction false} SplitThenJoin(s: string, separator: char)
    ensures Join(Split(s, separator), separator) == s
  {
    if s != "" {
      SplitThenJoin(s[1..], separator);
      assert s == [s[0]] + s[1..];
    }
  }

  lemma {:induction false} SplitOne(s: string, separator: char)
    requires separator !in s
    ensures Split(s, separator) == [s]
  {
    if s != "" {
      SplitOne(s[1..], separator);
      assert s == [s[0]] + s[1..];
    }
  }

  lemma {:induction false} SplitFirst(first: string, rest: string, separator: char)
    requires separator !in first
    ensures Split(first + [separator] + rest, separator) == [first] + Split(rest, separator)
  {
    var s := first + [separator] + rest;
    if first == "" {
      assert s[1..] == rest;
    } else {
      assert s[1..] == first[1..] + [separator] + rest;
      SplitFirst(first[1..], rest, separator);
      assert first == [first[0]] + first[1..];
    }
  }

  lemma {:induction false} IndexBehind(front: string, back: string, a: char, b: char)
    requires a !in front && b !in front && (back == "" || back[0] == a || back[0] == b)
    ensures IndexOf(front + back, a, b) == |front|
  {
    if front == "" {
      assert front + back == back;
    } else {
      assert (front + back)[1..] == front[1..] + back;
      IndexBehind(front[1..], back, a, b);
    }
  }

  lemma TailMatches(tail: string, prerelease: Option<string>, build: Option<string>)
    requires prerelease.Some? ==> Identifiers(prerelease.value)
    requires build.Some? ==> Identifiers(build.value)
    requires tail == (if prerelease.Some? then "-" + prerelease.value else "")
                     + if build.Some? then "+" + build.value else ""
    ensures MatchTail(tail) == Some((prerelease, build))
  {
    if prerelease.None? {
      if build.Some? {
        assert tail[0] == '+' && tail[1..] == build.value;
      }
    } else {
      var front, back := "-" + prerelease.value, if build.Some? then "+" + build.value else "";
      IndexBehind(front, back, '+', '+');
      assert tail == front + back && tail[0] == '-';
      assert tail[1..|front|] == prerelease.value;
      if build.Some? {
        assert tail[|front| + 1..] == build.value;
      }
    }
  }

  lemma TailIsExact(tail: string)
    requires MatchTail(tail).Some?
    ensures var m := MatchTail(tail).value;
            tail == (if m.0.Some? then "-" + m.0.value else "") + (if m.1.Some? then "+" + m.1.value else "")
  {
  }

  lemma CoreMatches(g: Groups)
    requires Shaped(g)
    ensures Split(Core(g), '.') == [g.major, g.minor, g.patch]
    ensures '-' !in Core(g) && '+' !in Core(g)
  {
    SplitFirst(g.major, g.minor + "." + g.patch, '.');
    SplitFirst(g.minor, g.patch, '.');
    SplitOne(g.patch, '.');
    assert Core(g) == g.major + "." + (g.minor + "." + g.patch);
  }

  lemma CoreIsExact(core: string, parts: seq<string>)
    requires parts == Split(core, '.') && |parts| == 3
    ensures core == parts[0] + "." + parts[1] + "." + parts[2]
  {
    SplitThenJoin(core, '.');
    assert Join(parts, '.') == parts[0] + ['.'] + Join(parts[1..], '.');
    assert Join(parts[1..], '.') == parts[1] + ['.'] + Join(parts[1..][1..], '.');
  }

  lemma MatchIsSound(s: string, g: Groups)
    requires Match(s) == Some(g)
    ensures UpdaterMatches(s, g)
  {
    var k := IndexOf(s, '-', '+');
    CoreIsExact(s[..k], Split(s[..k], '.'));
    TailIsExact(s[k..]);
    assert s == s[..k] + s[k..];
  }

  lemma MatchIsComplete(s: string, g: Groups)
    requires UpdaterMatches(s, g)
    ensures Match(s) == Some(g)
  {
    var core, tail := Core(g), Tail(g);
    CoreMatches(g);
    assert tail == "" || tail[0] == '-' || tail[0] == '+';
    IndexBehind(core, tail, '-', '+');
    assert s[..|core|] == core && s[|core|..] == tail;
    TailMatches(tail, g.prerelease, g.build);
  }

  /** `Match` decides the regular expression of the updater. */
  lemma MatchIsExact(s: string, g: Groups)
    ensures Match(s) == Some(g) <==> UpdaterMatches(s, g)
  {
    if UpdaterMatches(s, g) {
      MatchIsComplete(s, g);
    }
    if Match(s) == Some(g) {
      MatchIsSound(s, g);
    }
  }

  datatype Parsed = Parsed(major: string, minor: string, patch: string, prerelease: seq<string>, build: Option<string>)

  /** The match with its prerelease split up, unless an identifier is not allowed. */
  function Parse(s: string): (r: Option<Parsed>)
    ensures r.Some? ==>
              && Numeral(r.value.major) && Numeral(r.value.minor) && Numeral(r.value.patch)
              && forall part | part in r.value.prerelease :: PartOk(part)
  {
    var g := Match(s);
    if g.None? || !PartsOk(g.value) then None
    else
      var parts := if g.value.prerelease.Some? then Split(g.value.prerelease.value, '.') else [];
      Some(Parsed(g.value.major, g.value.minor, g.value.patch, parts, g.value.build))
  }

  lemma FirstCharacter(s: string)
    requires Match(s).Some?
    ensures s != "" && IsDigit(s[0])
  {
    MatchIsExact(s, Match(s).value);
    assert s[0] == Match(s).value.major[0];
  }

  // ----- the Admin's side

  /** Numbers as doubles: `number` rounds, and is exact below 2^53. */
  ghost predicate Exact(number: nat -> nat) {
    forall n :: n < 0x20_0000_0000_0000 ==> number(n) == n
  }

  datatype SemVer = SemVer(major: nat, minor: nat, patch: nat, prerelease: seq<string>)

  function ParseSemVer(number: nat -> nat, s: string): (r: Option<SemVer>)
    ensures r.Some? ==> forall part | part in r.value.prerelease :: PartOk(part)
  {
    var p := Parse(if s != "" && s[0] == 'v' then s[1..] else s);
    if p.None? then None
    else Some(SemVer(number(Value(p.value.major)), number(Value(p.value.minor)), number(Value(p.value.patch)),
                     p.value.prerelease))
  }

  function ToIdentifier(part: string): Identifier {
    if Digits(part) then Numeric(Value(part)) else Alphanumeric(part)
  }

  function ToIdentifiers(parts: seq<string>): (r: seq<Identifier>)
    ensures |r| == |parts|
  {
    if parts == [] then [] else [ToIdentifier(parts[0])] + ToIdentifiers(parts[1..])
  }

  function KeyOf(v: SemVer): Key {
    Key(v.major, v.minor, v.patch, v.prerelease == [], ToIdentifiers(v.prerelease))
  }

  /** Comparing two valid identifiers as strings and numbers is comparing their keys. */
  lemma SameIdentifier(a: string, b: string)
    requires PartOk(a) && PartOk(b)
    ensures a == b <==> ToIdentifier(a) == ToIdentifier(b)
  {
    if Digits(a) && Digits(b) && Value(a) == Value(b) {
      NumeralsAreUnique(a, b);
    }
  }

  /** `compareSemVer`: fields in turn, then identifiers until the first difference. */
  method CompareSemVer(number: nat -> nat, left: string, right: string) returns (r: Option<int>)
    ensures r.None? <==> ParseSemVer(number, left).None? || ParseSemVer(number, right).None?
    ensures r.Some? ==>
              r.value == CompareKeys(KeyOf(ParseSemVer(number, left).value), KeyOf(ParseSemVer(number, right).value))
  {
    var x, y := ParseSemVer(number, left), ParseSemVer(number, right);
    if x.None? || y.None? {
      return None;
    }
    var a, b := x.value, y.value;
    if a.major != b.major {
      return Some(if a.major < b.major then -1 else 1);
    }
    if a.minor != b.minor {
      return Some(if a.minor < b.minor then -1 else 1);
    }
    if a.patch != b.patch {
      return Some(if a.patch < b.patch then -1 else 1);
    }
    if a.prerelease == [] || b.prerelease == [] {
      if |a.prerelease| == |b.prerelease| {
        return Some(0);
      }
      return Some(if a.prerelease != [] then -1 else 1);
    }
    var length := if |a.prerelease| < |b.prerelease| then |b.prerelease| else |a.prerelease|;
    for i := 0 to length
      invariant i <= |a.prerelease| && i <= |b.prerelease|
      invariant CompareLists(ToIdentifiers(a.prerelease), ToIdentifiers(b.prerelease))
             == CompareLists(ToIdentifiers(a.prerelease[i..]), ToIdentifiers(b.prerelease[i..]))
    {
      if i == |a.prerelease| || i == |b.prerelease| {
        return Some(if i == |a.prerelease| then -1 else 1);
      }
      var av, bv := a.prerelease[i], b.prerelease[i];
      assert a.prerelease[i..][1..] == a.prerelease[i + 1..] && b.prerelease[i..][1..] == b.prerelease[i + 1..];
      SameIdentifier(av, bv);
      IdentifiersOrdered(ToIdentifier(av), ToIdentifier(bv));
      if av != bv {
        var an, bn := Digits(av), Digits(bv);
        if an && bn {
          return Some(if Value(av) < Value(bv) then -1 else 1);
        }
        if an != bn {
          return Some(if an then -1 else 1);
        }
        return Some(if CompareStrings(av, bv) < 0 then -1 else 1);
      }
    }
    return Some(0);
  }

  // ----- the host updater's side

  function VersionKey(s: string): Option<Key> {
    var p := Parse(s);
    if p.None? || (p.value.build.Some? && "" in Split(p.value.build.value, '.')) then None
    else Some(Key(Value(p.value.major), Value(p.value.minor), Value(p.value.patch),
                  p.value.prerelease == [], ToIdentifiers(p.value.prerelease)))
  }

  predicate Safe(k: Key) {
    k.major < 0x20_0000_0000_0000 && k.minor < 0x20_0000_0000_0000 && k.patch < 0x20_0000_0000_0000
  }

  /** The Admin accepts what its regular expression matches with proper prerelease identifiers. */
  lemma AdminAccepts(number: nat -> nat, s: string)
    ensures ParseSemVer(number, s).Some? <==> exists g :: AdminMatches(s, g) && PartsOk(g)
  {
    var t := if s != "" && s[0] == 'v' then s[1..] else s;
    forall g ensures AdminMatches(s, g) <==> Match(t) == Some(g) {
      MatchIsExact(t, g);
      if AdminMatches(s, g) {
        assert IsDigit(g.major[0]) && (Core(g) + Tail(g))[0] == g.major[0];
        assert t == Core(g) + Tail(g);
      }
    }
  }

  /** The updater asks for proper build identifiers, too. */
  lemma UpdaterAccepts(s: string)
    ensures VersionKey(s).Some? <==> exists g :: UpdaterMatches(s, g) && PartsOk(g) && BuildOk(g)
  {
    forall g ensures UpdaterMatches(s, g) <==> Match(s) == Some(g) {
      MatchIsExact(s, g);
    }
  }

  /** The updater accepts exactly what the Admin accepts without `v` and without empty build identifiers. */
  lemma AcceptanceDiffers(number: nat -> nat, s: string)
    ensures VersionKey(s).Some? <==>
              ParseSemVer(number, s).Some? && s[0] != 'v' && (Match(s).Some? ==> BuildOk(Match(s).value))
  {
    if Match(s).Some? {
      FirstCharacter(s);
    }
  }

  /** `v1.0.0` is a version for the Admin only. */
  lemma LeadingV(number: nat -> nat)
    ensures ParseSemVer(number, "v1.0.0").Some? && VersionKey("v1.0.0").None?
  {
    var s, g := "v1.0.0", Groups("1", "0", "0", None, None);
    assert s == "v" + (Core(g) + Tail(g));
    assert AdminMatches(s, g) && PartsOk(g);
    AdminAccepts(number, s);
    AcceptanceDiffers(number, s);
  }

  /** So is `1.0.0+a..b`. */
  lemma EmptyBuildIdentifier(number: nat -> nat)
    ensures ParseSemVer(number, "1.0.0+a..b").Some? && VersionKey("1.0.0+a..b").None?
  {
    var s, g := "1.0.0+a..b", Groups("1", "0", "0", None, Some("a..b"));
    assert s == Core(g) + Tail(g);
    assert UpdaterMatches(s, g) && AdminMatches(s, g) && PartsOk(g);
    AdminAccepts(number, s);
    MatchIsExact(s, g);
    TwoDots();
    AcceptanceDiffers(number, s);
  }

  lemma TwoDots()
    ensures "" in Split("a..b", '.')
  {
    SplitFirst("a", ".b", '.');
    SplitFirst("", "b", '.');
    assert "a..b" == "a" + ['.'] + ".b" && ".b" == "" + ['.'] + "b";
    assert Split("a..b", '.') == ["a"] + ([""] + Split("b", '.'));
    assert Split("a..b", '.')[1] == "";
  }

  /**
   * What the updater accepts the Admin accepts too, and while the core numbers are exact doubles
   * both order any two versions alike, as the standard says.
   */
  lemma BothSidesAgree(number: nat -> nat, s: string, t: string)
    requires Exact(number)
    requires VersionKey(s).Some? && VersionKey(t).Some?
    requires Safe(VersionKey(s).value) && Safe(VersionKey(t).value)
    ensures ParseSemVer(number, s).Some? && ParseSemVer(number, t).Some?
    ensures CompareKeys(KeyOf(ParseSemVer(number, s).value), KeyOf(ParseSemVer(number, t).value))
         == CompareKeys(VersionKey(s).value, VersionKey(t).value)
    ensures CompareKeys(VersionKey(s).value, VersionKey(t).value) < 0 <==>
              Precedes(VersionKey(s).value, VersionKey(t).value)
  {
    FirstCharacter(s);
    FirstCharacter(t);
    KeysFollowTheStandard(VersionKey(s).value, VersionKey(t).value);
  }

  // ----- versions written out

  function Decimal(n: nat): (s: string)
    ensures Numeral(s) && Value(s) == n
  {
    var digit := ('0' as int + n % 10) as char;
    if n < 10 then [digit]
    else
      var front := Decimal(n / 10);
      assert (front + [digit])[..|front|] == front;
      front + [digit]
  }

  /** A number written out is a proper identifier, zero included, and one that is longer never begins with zero. */
  lemma NumbersAreProper(n: nat, part: string)
    ensures PartOk(Decimal(n))
    ensures Digits(part) ==> (PartOk(part) <==> part == Decimal(Value(part)))
  {
    if Digits(part) {
      if Numeral(part) {
        NumeralsAreUnique(part, Decimal(Value(part)));
      }
    }
  }

  /** Identifiers are made of the digits, the letters of ASCII, hyphens and the full stops between them. */
  lemma IdentifierCharacters(s: string)
    ensures Identifiers(s) <==>
              && 0 < |s|
              && forall i | 0 <= i < |s| ::
                   var code := s[i] as int;
                   48 <= code <= 57 || 65 <= code <= 90 || 97 <= code <= 122 || code == 45 || code == 46
  {
    assert forall i | 0 <= i < |s| :: s[i] in s;
  }

  lemma GroupsAreRead(s: string, g: Groups)
    requires UpdaterMatches(s, g) && PartsOk(g) && g.build.None?
    ensures VersionKey(s) == Some(Key(Value(g.major), Value(g.minor), Value(g.patch), g.prerelease.None?,
                                      if g.prerelease.None? then [] else ToIdentifiers(Split(g.prerelease.value, '.'))))
  {
    MatchIsExact(s, g);
  }

  /** A version written out is read as its numbers, with what follows a hyphen as its prerelease. */
  lemma WrittenVersionIsRead(g: Groups, major: nat, minor: nat, patch: nat, prerelease: Option<string>)
    requires g == Groups(Decimal(major), Decimal(minor), Decimal(patch), prerelease, None)
    requires prerelease.Some? ==> Identifiers(prerelease.value)
    requires prerelease.Some? ==> forall part | part in Split(prerelease.value, '.') :: PartOk(part)
    ensures VersionKey(Core(g) + Tail(g))
            == Some(Key(major, minor, patch, prerelease.None?,
                        if prerelease.None? then [] else ToIdentifiers(Split(prerelease.value, '.'))))
  {
    GroupsAreRead(Core(g) + Tail(g), g);
  }

  // ----- the release offered

  /** A published release, by the version its tag parses to. */
  predicate Eligible(release: Option<SemVer>, installed: SemVer, beta: bool) {
    && release.Some?
    && (beta || release.value.prerelease == [])
    && CompareKeys(KeyOf(release.value), KeyOf(installed)) > 0
  }

  datatype Candidate = Candidate(index: nat, key: Key)

  /** Behind everything at least as new: a stable sort, newest first. */
  function Place(c: Candidate, s: seq<Candidate>): (r: seq<Candidate>)
    ensures forall x :: x in r <==> x in s || x == c
  {
    if s == [] then [c]
    else if CompareKeys(s[0].key, c.key) < 0 then [c] + s
    else [s[0]] + Place(c, s[1..])
  }

  function NewestFirst(s: seq<Candidate>): (r: seq<Candidate>)
    ensures forall x :: x in r <==> x in s
  {
    if s == [] then [] else Place(s[|s| - 1], NewestFirst(s[..|s| - 1]))
  }

  ghost predicate HeadIsNewest(s: seq<Candidate>) {
    forall x | x in s :: CompareKeys(s[0].key, x.key) >= 0
  }

  /** No other is as new as the head and was published before it in the list. */
  ghost predicate HeadIsFirst(s: seq<Candidate>) {
    forall x | x in s :: CompareKeys(s[0].key, x.key) == 0 ==> s[0].index <= x.index
  }

  ghost predicate InOrder(s: seq<Candidate>) {
    forall i, j | 0 <= i < j < |s| :: s[i].index < s[j].index
  }

  lemma {:induction false} SortedHeadIsFirst(s: seq<Candidate>)
    requires InOrder(s)
    ensures HeadIsFirst(NewestFirst(s))
  {
    if s != [] {
      var c, before := s[|s| - 1], s[..|s| - 1];
      var rest := NewestFirst(before);
      SortedHeadIsFirst(before);
      SortedHeadIsNewest(before);
      forall x | x in Place(c, rest) && CompareKeys(Place(c, rest)[0].key, x.key) == 0
        ensures Place(c, rest)[0].index <= x.index
      {
        if rest != [] {
          assert rest[0] in rest && rest[0] in before && rest[0].index < c.index;
          KeysOrdered(c.key, x.key, rest[0].key);
          KeysOrdered(x.key, c.key, rest[0].key);
          KeysOrdered(rest[0].key, x.key, c.key);
        }
      }
    }
  }

  lemma {:induction false} SortedHeadIsNewest(s: seq<Candidate>)
    ensures HeadIsNewest(NewestFirst(s))
  {
    if s != [] {
      var c, rest := s[|s| - 1], NewestFirst(s[..|s| - 1]);
      SortedHeadIsNewest(s[..|s| - 1]);
      forall x | x in Place(c, rest) ensures CompareKeys(Place(c, rest)[0].key, x.key) >= 0 {
        KeysOrdered(c.key, c.key, c.key);
        if rest != [] {
          KeysOrdered(rest[0].key, x.key, c.key);
          KeysOrdered(rest[0].key, c.key, x.key);
          KeysOrdered(x.key, rest[0].key, c.key);
          KeysOrdered(x.key, c.key, c.key);
        }
      }
    }
  }

  ghost predicate AllEligible(releases: seq<Option<SemVer>>, installed: SemVer, beta: bool,
                              candidates: seq<Candidate>) {
    && (forall c | c in candidates ::
          c.index < |releases| && Eligible(releases[c.index], installed, beta)
            && c.key == KeyOf(releases[c.index].value))
    && (forall k | 0 <= k < |releases| && Eligible(releases[k], installed, beta) ::
          Candidate(k, KeyOf(releases[k].value)) in candidates)
  }

  /** The eligible releases in the order of their publication. */
  method Candidates(releases: seq<Option<SemVer>>, installed: SemVer, beta: bool) returns (candidates: seq<Candidate>)
    ensures AllEligible(releases, installed, beta, candidates) && InOrder(candidates)
  {
    candidates := [];
    for i := 0 to |releases|
      invariant AllEligible(releases[..i], installed, beta, candidates) && InOrder(candidates)
    {
      if Eligible(releases[i], installed, beta) {
        candidates := candidates + [Candidate(i, KeyOf(releases[i].value))];
      }
    }
    assert releases[..|releases|] == releases;
  }

  /** Sorts the eligible releases and takes the first. */
  method Newest(releases: seq<Option<SemVer>>, installed: SemVer, beta: bool) returns (latest: Option<nat>)
    ensures latest.None? <==> forall i | 0 <= i < |releases| :: !Eligible(releases[i], installed, beta)
    ensures latest.Some? ==> latest.value < |releases| && Eligible(releases[latest.value], installed, beta)
    ensures latest.Some? ==>
              forall i | 0 <= i < |releases| && Eligible(releases[i], installed, beta) ::
                var order := CompareKeys(KeyOf(releases[latest.value].value), KeyOf(releases[i].value));
                order >= 0 && (i < latest.value ==> order != 0)
  {
    var candidates := Candidates(releases, installed, beta);
    var sorted := NewestFirst(candidates);
    SortedHeadIsNewest(candidates);
    SortedHeadIsFirst(candidates);
    latest := None;
    if sorted != [] {
      assert sorted[0] in candidates;
      latest := Some(sorted[0].index);
    }
  }

  /** The newest eligible release; nothing when none is eligible. */
  method SelectLatestRelease(number: nat -> nat, tags: seq<string>, installedVersion: string, beta: bool)
    returns (invalid: bool, latest: Option<nat>)
    ensures invalid <==> ParseSemVer(number, installedVersion).None?
    ensures !invalid ==>
              var installed := ParseSemVer(number, installedVersion).value;
              && (latest.None? <==> forall i | 0 <= i < |tags| ::
                                   !Eligible(ParseSemVer(number, tags[i]), installed, beta))
              && (latest.Some? ==>
                    && latest.value < |tags| && Eligible(ParseSemVer(number, tags[latest.value]), installed, beta)
                    && forall i | 0 <= i < |tags| && Eligible(ParseSemVer(number, tags[i]), installed, beta) ::
                         CompareKeys(KeyOf(ParseSemVer(number, tags[latest.value]).value),
                                     KeyOf(ParseSemVer(number, tags[i]).value)) >= 0)
    // Of versions that are equally new, the one listed first.
    ensures !invalid && latest.Some? ==>
              forall i | 0 <= i < latest.value
                         && Eligible(ParseSemVer(number, tags[i]), ParseSemVer(number, installedVersion).value, beta) ::
                CompareKeys(KeyOf(ParseSemVer(number, tags[latest.value]).value),
                            KeyOf(ParseSemVer(number, tags[i]).value)) != 0
    // Only a newer version is offered, and a prerelease only to those who take part in the beta.
    ensures !invalid && latest.Some? ==>
              var offered := ParseSemVer(number, tags[latest.value]);
              && offered.Some? && (!beta ==> offered.value.prerelease == [])
              && CompareKeys(KeyOf(offered.value), KeyOf(ParseSemVer(number, installedVersion).value)) > 0
    ensures !invalid && latest.None? ==>
              forall i | 0 <= i < |tags| && ParseSemVer(number, tags[i]).Some? ::
                var other := ParseSemVer(number, tags[i]).value;
                || (!beta && other.prerelease != [])
                || CompareKeys(KeyOf(other), KeyOf(ParseSemVer(number, installedVersion).value)) <= 0
  {
    var installed := ParseSemVer(number, installedVersion);
    if installed.None? {
      return true, None;
    }
    var releases := seq(|tags|, i requires 0 <= i < |tags| => ParseSemVer(number, tags[i]));
    invalid := false;
    latest := Newest(releases, installed.value, beta);
    assert forall i | 0 <= i < |tags| :: releases[i] == ParseSemVer(number, tags[i]);
  }
}
