/**
  The input normaliser: turns one raw database row into a cargo unit. It
  resolves the identity through a fallback chain, takes dimensions from the
  tare catalog, else from the pallet-type string, else a standard pallet,
  picks the height from the row, the volume, the type or a default, and
  records every fallback it took in the unit's status trail.
 */
module Normalize {
  import opened Wrappers
  import opened Text
  import opened Domain

  /** Cyrillic capital Ha, which operators type in place of the Latin X. */
  const CyrillicHa: char := 'Х'

  /** A row value as the float coercion sees it: absent, a number, or something that does not parse. */
  datatype Cell = Null | Num(value: real) | Unparsable

  /** One tare catalog entry, in centimetres and kilograms. */
  datatype TareEntry = TareEntry(width: real, length: real, weight: real)

  /** The columns of a database row the normaliser reads. */
  datatype Row = Row(
    dropContainerId: Option<string>,
    sscc: Option<string>,
    id: Option<string>,
    palletType: Option<string>,
    weight: Cell,
    volume: Cell,
    height: Cell,
    ratio: Cell,
    providerId: Option<string>,
    providerName: Option<string>,
    recordId: Option<string>,
    taskId: Option<string>,
    routeId: Option<string>,
    transportType: Option<string>)

  /** A checked numeric input: accepted with its value, or rejected with a reason. */
  datatype Checked = Accepted(value: real) | Rejected(reason: string)

  // ---------------------------------------------------------------------------
  // Code keys and the tare catalog
  // ---------------------------------------------------------------------------

  /** A string value counts as given when it is present and not empty. */
  predicate Given(v: Option<string>) {
    v.Some? && v.value != ""
  }

  /** Python's `a or b` on optional strings. */
  function Or(a: Option<string>, b: Option<string>): (r: Option<string>)
    ensures Given(a) ==> r == a
    ensures !Given(a) ==> r == b
  {
    if Given(a) then a else b
  }

  /** A character the key normalisation leaves alone. */
  predicate KeyChar(c: char) {
    UpperChar(c) == c && c != CyrillicHa
  }

  /** One character of a code key: upper-cased, with Cyrillic Ha (either case) read as Latin X. */
  function KeyOf(c: char): char {
    var u := UpperChar(c);
    if u == CyrillicHa then 'X' else u
  }

  /** One character after upper-casing and the Ha-to-X mapping: a key character, a space exactly when it was one. */
  lemma KeyOfChar(c: char)
    ensures KeyChar(KeyOf(c)) && (IsSpace(KeyOf(c)) <==> IsSpace(c))
  {
  }

  /** Upper-casing then mapping Ha to X yields key characters, with spaces where there were spaces. */
  lemma KeyChars(t: string)
    ensures var k := ReplaceChar(Upper(t), CyrillicHa, 'X');
      && |k| == |t|
      && (forall i :: 0 <= i < |k| ==> KeyChar(k[i]))
      && (forall i :: 0 <= i < |k| ==> (IsSpace(k[i]) <==> IsSpace(t[i])))
      && (forall i :: 0 <= i < |k| ==> k[i] == KeyOf(t[i]))
  {
    var k := ReplaceChar(Upper(t), CyrillicHa, 'X');
    forall i | 0 <= i < |k|
      ensures k[i] == KeyOf(t[i]) && KeyChar(k[i]) && (IsSpace(k[i]) <==> IsSpace(t[i]))
    {
      KeyOfChar(t[i]);
    }
  }

  /**
    Trims, upper-cases and maps Cyrillic Ha to Latin X; missing or empty
    input gives the empty key.
   */
  function NormalizeCodeKey(s: Option<string>): (k: string)
    ensures !Given(s) ==> k == ""
    ensures forall i :: 0 <= i < |k| ==> KeyChar(k[i])
    ensures |k| > 0 ==> !IsSpace(k[0]) && !IsSpace(k[|k| - 1])
    ensures Given(s) ==> |k| == |Strip(s.value)|
    ensures Given(s) ==> forall i :: 0 <= i < |k| ==> k[i] == KeyOf(Strip(s.value)[i])
  {
    if !Given(s) then ""
    else
      var t := Strip(s.value);
      KeyChars(t);
      ReplaceChar(Upper(t), CyrillicHa, 'X')
  }

  /** A string without surrounding whitespace strips to itself. */
  lemma StripTrimmed(s: string)
    requires |s| > 0 ==> !IsSpace(s[0]) && !IsSpace(s[|s| - 1])
    ensures Strip(s) == s
  {
    assert StripLeft(s) == s;
  }

  /** Normalising a key again changes nothing. */
  lemma NormalizeCodeKeyIdempotent(s: Option<string>)
    ensures NormalizeCodeKey(Some(NormalizeCodeKey(s))) == NormalizeCodeKey(s)
  {
    var k := NormalizeCodeKey(s);
    if k != "" {
      StripTrimmed(k);
      assert Upper(k) == k;
      assert ReplaceChar(k, CyrillicHa, 'X') == k;
    }
  }

  /** The tare entry for a code, looked up under its normalised key; an empty key finds nothing. */
  function LookupTara(catalog: map<string, TareEntry>, code: Option<string>): (r: Option<TareEntry>)
    ensures r.Some? <==> NormalizeCodeKey(code) != "" && NormalizeCodeKey(code) in catalog
    ensures r.Some? ==> r.value == catalog[NormalizeCodeKey(code)]
  {
    var k := NormalizeCodeKey(code);
    if k == "" then None
    else if k in catalog then Some(catalog[k]) else None
  }

  /** Per-type stacking rules, (can be a base, can be stacked on), by normalised key. */
  type StackRules = map<string, (bool, bool)>

  /** The rules the normaliser is configured with: none. */
  const NoStackRules: StackRules := map[]

  /** The flags a rule gives the type's key, or both permissive flags when no rule names it. */
  function StackFlags(rules: StackRules, palletType: Option<string>): (f: (bool, bool))
    ensures NormalizeCodeKey(palletType) in rules ==> f == rules[NormalizeCodeKey(palletType)]
    ensures NormalizeCodeKey(palletType) !in rules ==> f == (true, true)
  {
    var key := NormalizeCodeKey(palletType);
    if key in rules then rules[key] else (true, true)
  }

  // ---------------------------------------------------------------------------
  // The pallet-type scanner: leftmost "PAL w X l", else leftmost "BOX w X l X h"
  // ---------------------------------------------------------------------------

  /** The first non-space index at or after `i`. */
  function SkipSpaces(s: string, i: nat): (j: nat)
    requires i <= |s|
    ensures i <= j <= |s|
    ensures j == |s| || !IsSpace(s[j])
    decreases |s| - i
  {
    if i < |s| && IsSpace(s[i]) then SkipSpaces(s, i + 1) else i
  }

  /** Everything skipped is a space. */
  lemma {:induction false} SkipSpacesSound(s: string, i: nat)
    requires i <= |s|
    ensures forall k :: i <= k < SkipSpaces(s, i) ==> IsSpace(s[k])
    decreases |s| - i
  {
    if i < |s| && IsSpace(s[i]) {
      SkipSpacesSound(s, i + 1);
    }
  }

  /** The first non-digit index at or after `i`. */
  function DigitsEnd(s: string, i: nat): (j: nat)
    requires i <= |s|
    ensures i <= j <= |s|
    ensures j == |s| || !IsDigit(s[j])
    decreases |s| - i
  {
    if i < |s| && IsDigit(s[i]) then DigitsEnd(s, i + 1) else i
  }

  /** Everything before the end of the run is a digit. */
  lemma {:induction false} DigitsEndSound(s: string, i: nat)
    requires i <= |s|
    ensures forall k :: i <= k < DigitsEnd(s, i) ==> IsDigit(s[k])
    decreases |s| - i
  {
    if i < |s| && IsDigit(s[i]) {
      DigitsEndSound(s, i + 1);
    }
  }

  /** The value of the digits `s[j..e]`, read in place. */
  function DigitsValueAt(s: string, j: nat, e: nat): nat
    requires j <= e <= |s|
    decreases e - j
  {
    if e == j then 0 else DigitsValueAt(s, j, e - 1) * 10 + DigitOf(s[e - 1])
  }

  /** Reading in place agrees with reading the slice. */
  lemma {:induction false} DigitsValueAtSlice(s: string, j: nat, e: nat)
    requires j <= e <= |s|
    ensures DigitsValueAt(s, j, e) == DigitsValue(s[j..e])
    decreases e - j
  {
    if e > j {
      DigitsValueAtSlice(s, j, e - 1);
      assert s[j..e][..e - j - 1] == s[j..e - 1];
    }
  }

  /** A number read from the text, and the index just after it. */
  datatype Scanned = Scanned(value: nat, end: nat)

  /** Optional spaces, then a maximal non-empty run of digits. */
  function ScanNumber(s: string, i: nat): (r: Option<Scanned>)
    requires i <= |s|
    ensures r.Some? ==> i < r.value.end <= |s|
  {
    var j := SkipSpaces(s, i);
    var e := DigitsEnd(s, j);
    if e == j then None else Some(Scanned(DigitsValueAt(s, j, e), e))
  }

  /** A number is read exactly when a digit follows the spaces; it is the whole run of digits there. */
  lemma ScanNumberSound(s: string, i: nat)
    requires i <= |s|
    ensures ScanNumber(s, i).Some? <==> SkipSpaces(s, i) < |s| && IsDigit(s[SkipSpaces(s, i)])
    ensures ScanNumber(s, i).Some? ==>
      (&& SkipSpaces(s, i) < ScanNumber(s, i).value.end <= |s|
       && AllDigits(s[SkipSpaces(s, i)..ScanNumber(s, i).value.end])
       && ScanNumber(s, i).value.value == DigitsValue(s[SkipSpaces(s, i)..ScanNumber(s, i).value.end])
       && (ScanNumber(s, i).value.end == |s| || !IsDigit(s[ScanNumber(s, i).value.end])))
  {
    var j := SkipSpaces(s, i);
    var e := DigitsEnd(s, j);
    DigitsEndSound(s, j);
    if e != j {
      assert AllDigits(s[j..e]);
      DigitsValueAtSlice(s, j, e);
    }
  }

  /** Optional spaces, then a Latin X or a Cyrillic Ha; the index after the separator. */
  function ScanSeparator(s: string, i: nat): (r: Option<nat>)
    requires i <= |s|
    ensures r.Some? ==> r.value == SkipSpaces(s, i) + 1 <= |s|
    ensures r.Some? <==> SkipSpaces(s, i) < |s| && s[SkipSpaces(s, i)] in {'X', CyrillicHa}
  {
    var j := SkipSpaces(s, i);
    if j < |s| && (s[j] == 'X' || s[j] == CyrillicHa) then Some(j + 1) else None
  }

  /** `n` numbers separated by X, each preceded by optional spaces. */
  function ScanGroups(s: string, i: nat, n: nat): (r: Option<seq<nat>>)
    requires i <= |s| && n >= 1
    ensures r.Some? ==> |r.value| == n
    decreases n
  {
    var a := ScanNumber(s, i);
    if a.None? then None
    else if n == 1 then Some([a.value.value])
    else
      var j := ScanSeparator(s, a.value.end);
      if j.None? then None
      else
        var rest := ScanGroups(s, j.value, n - 1);
        if rest.None? then None else Some([a.value.value] + rest.value)
  }

  /** The two shapes a pallet-type string can spell out. */
  datatype Shape = PalPattern | BoxPattern {
    function Tag(): (t: string)
      ensures |t| == 3
    {
      match this
      case PalPattern => "PAL"
      case BoxPattern => "BOX"
    }

    function Arity(): (n: nat)
      ensures n >= 2
    {
      match this
      case PalPattern => 2
      case BoxPattern => 3
    }
  }

  /** The shape's pattern matched at index `i`: its tag, then its numbers. */
  function MatchAt(shape: Shape, s: string, i: nat): (r: Option<seq<nat>>)
    requires i <= |s|
    ensures r.Some? ==> OccursAt(s, shape.Tag(), i) && |r.value| == shape.Arity()
  {
    if OccursAt(s, shape.Tag(), i) then ScanGroups(s, i + 3, shape.Arity()) else None
  }

  /** The leftmost match of the shape's pattern at or after `i`, as a regex search finds it. */
  function Search(shape: Shape, s: string, i: nat): Option<seq<nat>>
    requires i <= |s|
    decreases |s| - i
  {
    if i == |s| then None
    else
      match MatchAt(shape, s, i)
      case Some(g) => Some(g)
      case None => Search(shape, s, i + 1)
  }

  /** The leftmost position at or after `i` where the pattern matches, or the end of the text. */
  function FirstMatch(shape: Shape, s: string, i: nat): (k: nat)
    requires i <= |s|
    ensures i <= k <= |s|
    ensures k < |s| ==> MatchAt(shape, s, k).Some?
    ensures forall m :: i <= m < k ==> MatchAt(shape, s, m).None?
    decreases |s| - i
  {
    if i == |s| || MatchAt(shape, s, i).Some? then i else FirstMatch(shape, s, i + 1)
  }

  /** The search returns the match at the leftmost matching position, and nothing when there is none. */
  lemma {:induction false} SearchIsFirstMatch(shape: Shape, s: string, i: nat)
    requires i <= |s|
    ensures FirstMatch(shape, s, i) < |s| ==> Search(shape, s, i) == MatchAt(shape, s, FirstMatch(shape, s, i))
    ensures FirstMatch(shape, s, i) == |s| ==> Search(shape, s, i).None?
    decreases |s| - i
  {
    if i < |s| && MatchAt(shape, s, i).None? {
      SearchIsFirstMatch(shape, s, i + 1);
    }
  }

  /** A match found by the search has as many numbers as its shape asks for. */
  lemma {:induction false} SearchArity(shape: Shape, s: string, i: nat)
    requires i <= |s|
    ensures Search(shape, s, i).Some? ==> |Search(shape, s, i).value| == shape.Arity()
    decreases |s| - i
  {
    if i < |s| && MatchAt(shape, s, i).None? {
      SearchArity(shape, s, i + 1);
    }
  }

  /** The text the scanner reads: trimmed and upper-cased. */
  function Canonical(raw: string): (s: string)
    ensures |s| <= |raw|
  {
    Upper(Strip(raw))
  }

  /** Parsed dimensions in metres: width, length and, for a box, its height. */
  type Parsed = (real, real, Option<real>)

  function Metres(cm: nat): (m: real)
    ensures m >= 0.0
  {
    cm as real / 100.0
  }

  /** The dimensions spelt out by already canonical text: the first "PAL" match, else the first "BOX" match. */
  function ParseCanonical(s: string): (r: Option<Parsed>)
    ensures r.Some? ==> r.value.0 >= 0.0 && r.value.1 >= 0.0 && (r.value.2.Some? ==> r.value.2.value >= 0.0)
    ensures r.Some? && r.value.2.None? <==> Search(PalPattern, s, 0).Some?
    ensures r.Some? && r.value.2.Some? <==> Search(PalPattern, s, 0).None? && Search(BoxPattern, s, 0).Some?
  {
    SearchArity(PalPattern, s, 0);
    SearchArity(BoxPattern, s, 0);
    match Search(PalPattern, s, 0)
    case Some(g) => Some((Metres(g[0]), Metres(g[1]), None))
    case None =>
      match Search(BoxPattern, s, 0)
      case Some(g) => Some((Metres(g[0]), Metres(g[1]), Some(Metres(g[2]))))
      case None => None
  }

  /**
    The dimensions a pallet-type string spells out: a "PAL" pattern anywhere
    gives width and length, else a "BOX" pattern gives all three; anything else
    is not understood.
   */
  function ParsePalletType(raw: string): (r: Option<Parsed>)
    ensures raw == "" ==> r.None?
    ensures r.Some? ==> r.value.0 >= 0.0 && r.value.1 >= 0.0 && (r.value.2.Some? ==> r.value.2.value >= 0.0)
    ensures r.Some? && r.value.2.None? <==> raw != "" && Search(PalPattern, Canonical(raw), 0).Some?
    ensures r.Some? && r.value.2.Some? <==>
      raw != "" && Search(PalPattern, Canonical(raw), 0).None? && Search(BoxPattern, Canonical(raw), 0).Some?
  {
    if raw == "" then None else ParseCanonical(Canonical(raw))
  }

  // ---------------------------------------------------------------------------
  // Reading rendered pallet types back
  // ---------------------------------------------------------------------------

  /** The first non-digit at or after `i` is the end of a known run of digits. */
  lemma {:induction false} DigitsEndAt(s: string, i: nat, e: nat)
    requires i <= e <= |s|
    requires forall k :: i <= k < e ==> IsDigit(s[k])
    requires e == |s| || !IsDigit(s[e])
    ensures DigitsEnd(s, i) == e
    decreases e - i
  {
    if i < e {
      DigitsEndAt(s, i + 1, e);
    }
  }

  /** A number written at `i` and not followed by another digit is read back whole. */
  lemma ScanRendered(s: string, i: nat, n: nat)
    requires i + |NatToString(n)| <= |s|
    requires s[i..i + |NatToString(n)|] == NatToString(n)
    requires i + |NatToString(n)| == |s| || !IsDigit(s[i + |NatToString(n)|])
    ensures ScanNumber(s, i) == Some(Scanned(n, i + |NatToString(n)|))
  {
    var d := NatToString(n);
    var e := i + |d|;
    assert s[i] == d[0];
    assert forall k :: i <= k < e ==> s[k] == d[k - i];
    DigitsEndAt(s, i, e);
    DigitsValueAtSlice(s, i, e);
    DigitsValueOfNatToString(n);
  }

  /** The separators an operator may type: Latin or Cyrillic X, in either case. */
  predicate XChar(c: char) {
    c in {'X', 'x', CyrillicHa, 'х'}
  }

  /** Numbers in decimal with `sep` between them. */
  function Numbers(nums: seq<nat>, sep: char): (r: string)
    requires |nums| >= 1
    ensures |r| >= 1
    decreases |nums|
  {
    if |nums| == 1 then NatToString(nums[0])
    else NatToString(nums[0]) + [sep] + Numbers(nums[1..], sep)
  }

  /** Rendered numbers hold only digits and the separator, and start and end with a digit. */
  lemma {:induction false} NumbersChars(nums: seq<nat>, sep: char)
    requires |nums| >= 1
    ensures IsDigit(Numbers(nums, sep)[0]) && IsDigit(Numbers(nums, sep)[|Numbers(nums, sep)| - 1])
    ensures forall k :: 0 <= k < |Numbers(nums, sep)| ==> IsDigit(Numbers(nums, sep)[k]) || Numbers(nums, sep)[k] == sep
    decreases |nums|
  {
    if |nums| > 1 {
      var head := NatToString(nums[0]);
      var rest := Numbers(nums[1..], sep);
      var r := Numbers(nums, sep);
      NumbersChars(nums[1..], sep);
      assert r == head + [sep] + rest;
      assert forall k :: |head| < k < |r| ==> r[k] == rest[k - |head| - 1];
    }
  }

  /** A pallet type as an operator types it: the shape's tag, then its numbers. */
  function Render(shape: Shape, nums: seq<nat>, sep: char): string
    requires |nums| >= 1
  {
    shape.Tag() + Numbers(nums, sep)
  }

  /** Upper-casing leaves digits alone and upper-cases the separator. */
  lemma {:induction false} UpperNumbers(nums: seq<nat>, sep: char)
    requires |nums| >= 1
    ensures Upper(Numbers(nums, sep)) == Numbers(nums, UpperChar(sep))
    decreases |nums|
  {
    var head := NatToString(nums[0]);
    assert Upper(head) == head;
    if |nums| > 1 {
      UpperNumbers(nums[1..], sep);
      UpperConcat(head + [sep], Numbers(nums[1..], sep));
      UpperConcat(head, [sep]);
    }
  }

  /** A rendered pallet type starts with a letter and ends with a digit, so stripping keeps it. */
  lemma RenderedTrimmed(shape: Shape, nums: seq<nat>, sep: char)
    requires |nums| >= 1
    ensures Strip(Render(shape, nums, sep)) == Render(shape, nums, sep)
  {
    var r := Render(shape, nums, sep);
    var t := Numbers(nums, sep);
    NumbersChars(nums, sep);
    assert r[|r| - 1] == t[|t| - 1];
    assert r[0] == shape.Tag()[0];
    StripTrimmed(r);
  }

  /** Upper-casing a rendered pallet type upper-cases only its separator. */
  lemma UpperRender(shape: Shape, nums: seq<nat>, sep: char)
    requires |nums| >= 1
    ensures Upper(Render(shape, nums, sep)) == Render(shape, nums, UpperChar(sep))
  {
    UpperConcat(shape.Tag(), Numbers(nums, sep));
    UpperNumbers(nums, sep);
    assert Upper(shape.Tag()) == shape.Tag();
  }

  /** The scanner's view of a rendered pallet type: same text, separator upper-cased. */
  lemma CanonicalRendered(shape: Shape, nums: seq<nat>, sep: char)
    requires |nums| >= 1
    ensures Canonical(Render(shape, nums, sep)) == Render(shape, nums, UpperChar(sep))
  {
    RenderedTrimmed(shape, nums, sep);
    UpperRender(shape, nums, sep);
  }

  /** Where the first of several rendered numbers ends, at `e`, the separator follows, then the rest. */
  lemma SplitRendered(s: string, i: nat, nums: seq<nat>, sep: char, e: nat)
    requires |nums| >= 2
    requires i <= |s| && s[i..] == Numbers(nums, sep)
    requires e == i + |NatToString(nums[0])|
    ensures e < |s|
    ensures s[i..e] == NatToString(nums[0])
    ensures s[e] == sep
    ensures s[e + 1..] == Numbers(nums[1..], sep)
  {
    var d := NatToString(nums[0]);
    assert s[i..] == d + [sep] + Numbers(nums[1..], sep);
    assert s[i..][..|d|] == d;
  }

  /** One rendered number, up to the end of the text, scans back as that number. */
  lemma LastRendered(s: string, i: nat, n: nat, sep: char)
    requires i <= |s| && s[i..] == Numbers([n], sep)
    ensures ScanGroups(s, i, 1) == Some([n])
  {
    assert s[i..i + |NatToString(n)|] == NatToString(n);
    ScanRendered(s, i, n);
  }

  /** A separator right at `e` is read there. */
  lemma SeparatorAt(s: string, e: nat)
    requires e < |s| && s[e] in {'X', CyrillicHa}
    ensures ScanSeparator(s, e) == Some(e + 1)
  {
    assert SkipSpaces(s, e) == e;
  }

  /** A rendered number followed by a separator scans back as that number, then that separator. */
  lemma NumberThenSeparator(s: string, i: nat, n: nat, sep: char, e: nat)
    requires sep in {'X', CyrillicHa}
    requires e == i + |NatToString(n)| && e < |s|
    requires s[i..e] == NatToString(n) && s[e] == sep
    ensures ScanNumber(s, i) == Some(Scanned(n, e))
    ensures ScanSeparator(s, e) == Some(e + 1)
  {
    ScanRendered(s, i, n);
    SeparatorAt(s, e);
  }

  /** The first of several rendered numbers scans back, the separator after it too, and the rest follows. */
  lemma HeadRendered(s: string, i: nat, nums: seq<nat>, sep: char) returns (e: nat)
    requires |nums| >= 2 && sep in {'X', CyrillicHa}
    requires i <= |s| && s[i..] == Numbers(nums, sep)
    ensures e < |s|
    ensures ScanNumber(s, i) == Some(Scanned(nums[0], e))
    ensures ScanSeparator(s, e) == Some(e + 1)
    ensures s[e + 1..] == Numbers(nums[1..], sep)
  {
    e := i + |NatToString(nums[0])|;
    SplitRendered(s, i, nums, sep, e);
    NumberThenSeparator(s, i, nums[0], sep, e);
  }

  /** A number, a separator and the remaining groups make the groups. */
  lemma ScanGroupsStep(s: string, i: nat, a: Scanned, j: nat, rest: seq<nat>, n: nat, whole: seq<nat>)
    requires i <= |s| && j <= |s| && |rest| >= 1
    requires n == |rest| + 1 && whole == [a.value] + rest
    requires ScanNumber(s, i) == Some(a)
    requires ScanSeparator(s, a.end) == Some(j)
    requires ScanGroups(s, j, |rest|) == Some(rest)
    ensures ScanGroups(s, i, n) == Some(whole)
  {
  }

  /** A number, a separator and the remaining groups make the whole groups. */
  lemma ScanGroupsWhole(s: string, i: nat, nums: seq<nat>, e: nat)
    requires i <= |s| && e < |s| && |nums| >= 2
    requires ScanNumber(s, i) == Some(Scanned(nums[0], e))
    requires ScanSeparator(s, e) == Some(e + 1)
    requires ScanGroups(s, e + 1, |nums[1..]|) == Some(nums[1..])
    ensures ScanGroups(s, i, |nums|) == Some(nums)
  {
    assert nums == [nums[0]] + nums[1..];
    ScanGroupsStep(s, i, Scanned(nums[0], e), e + 1, nums[1..], |nums|, nums);
  }

  /** One rendered number scans back as the one-element groups. */
  lemma ScanGroupsOne(s: string, i: nat, nums: seq<nat>, sep: char)
    requires |nums| == 1 && i <= |s| && s[i..] == Numbers(nums, sep)
    ensures ScanGroups(s, i, |nums|) == Some(nums)
  {
    assert nums == [nums[0]];
    LastRendered(s, i, nums[0], sep);
  }

  /** Rendered numbers separated by X or Ha, up to the end of the text, scan back as those numbers. */
  lemma {:induction false} ScanGroupsRendered(s: string, i: nat, nums: seq<nat>, sep: char)
    requires |nums| >= 1 && sep in {'X', CyrillicHa}
    requires i <= |s| && s[i..] == Numbers(nums, sep)
    ensures ScanGroups(s, i, |nums|) == Some(nums)
    decreases |nums|, 2
  {
    if |nums| == 1 {
      ScanGroupsOne(s, i, nums, sep);
    } else {
      ScanGroupsRenderedMany(s, i, nums, sep);
    }
  }

  /** The inductive step: the first number and separator, then the rest by induction. */
  lemma {:induction false} ScanGroupsRenderedMany(s: string, i: nat, nums: seq<nat>, sep: char)
    requires |nums| >= 2 && sep in {'X', CyrillicHa}
    requires i <= |s| && s[i..] == Numbers(nums, sep)
    ensures ScanGroups(s, i, |nums|) == Some(nums)
    decreases |nums|, 1
  {
    var e := HeadRendered(s, i, nums, sep);
    ScanGroupsTail(s, i, nums, sep, e);
  }

  /** Once the first number and separator are read, the rest of the groups follow by induction. */
  lemma {:induction false} ScanGroupsTail(s: string, i: nat, nums: seq<nat>, sep: char, e: nat)
    requires |nums| >= 2 && sep in {'X', CyrillicHa}
    requires i <= |s| && e < |s|
    requires ScanNumber(s, i) == Some(Scanned(nums[0], e))
    requires ScanSeparator(s, e) == Some(e + 1)
    requires s[e + 1..] == Numbers(nums[1..], sep)
    ensures ScanGroups(s, i, |nums|) == Some(nums)
    decreases |nums|, 0
  {
    ScanGroupsRendered(s, e + 1, nums[1..], sep);
    ScanGroupsWhole(s, i, nums, e);
  }

  /** A rendered pallet type matches its own shape at the start. */
  lemma MatchRendered(shape: Shape, nums: seq<nat>, sep: char)
    requires |nums| == shape.Arity() && sep in {'X', CyrillicHa}
    ensures MatchAt(shape, Render(shape, nums, sep), 0) == Some(nums)
  {
    var s := Render(shape, nums, sep);
    assert OccursAt(s, shape.Tag(), 0);
    assert s[3..] == Numbers(nums, sep);
    ScanGroupsRendered(s, 3, nums, sep);
  }

  /** A search finds a match at the very start. */
  lemma SearchAtStart(shape: Shape, s: string)
    requires MatchAt(shape, s, 0).Some?
    ensures Search(shape, s, 0) == MatchAt(shape, s, 0)
  {
  }

  /** A search finds nothing when nothing matches anywhere. */
  lemma SearchNowhere(shape: Shape, s: string)
    requires forall k :: 0 <= k <= |s| ==> MatchAt(shape, s, k).None?
    ensures Search(shape, s, 0).None?
  {
    SearchIsFirstMatch(shape, s, 0);
  }

  /** A typed "PAL wXl" (any case, Latin or Cyrillic X) reads back as w and l in metres. */
  lemma ParsePalRoundTrip(w: nat, l: nat, sep: char)
    requires XChar(sep)
    ensures ParsePalletType(Render(PalPattern, [w, l], sep)) == Some((Metres(w), Metres(l), None))
  {
    var s := Render(PalPattern, [w, l], UpperChar(sep));
    CanonicalRendered(PalPattern, [w, l], sep);
    MatchRendered(PalPattern, [w, l], UpperChar(sep));
    SearchAtStart(PalPattern, s);
  }

  /** With no 'P' in the text, no "PAL" pattern matches anywhere. */
  lemma NoPalWithoutP(s: string)
    requires forall k :: 0 <= k < |s| ==> s[k] != 'P'
    ensures forall k :: 0 <= k <= |s| ==> MatchAt(PalPattern, s, k).None?
  {
    forall k | 0 <= k <= |s|
      ensures !OccursAt(s, "PAL", k)
    {
      if k + 3 <= |s| {
        assert s[k..k + 3][0] == s[k];
      }
    }
  }

  /** A rendered box type holds no 'P'. */
  lemma NoPInBox(nums: seq<nat>, u: char)
    requires |nums| >= 1 && u in {'X', CyrillicHa}
    ensures forall k :: 0 <= k < |Render(BoxPattern, nums, u)| ==> Render(BoxPattern, nums, u)[k] != 'P'
  {
    var r := Render(BoxPattern, nums, u);
    var t := Numbers(nums, u);
    NumbersChars(nums, u);
    assert forall k :: 3 <= k < |r| ==> r[k] == t[k - 3];
  }

  /** A typed "BOX wXlXh" reads back as all three dimensions in metres. */
  lemma ParseBoxRoundTrip(w: nat, l: nat, h: nat, sep: char)
    requires XChar(sep)
    ensures ParsePalletType(Render(BoxPattern, [w, l, h], sep)) == Some((Metres(w), Metres(l), Some(Metres(h))))
  {
    var u := UpperChar(sep);
    var s := Render(BoxPattern, [w, l, h], u);
    CanonicalRendered(BoxPattern, [w, l, h], sep);
    NoPInBox([w, l, h], u);
    NoPalWithoutP(s);
    SearchNowhere(PalPattern, s);
    MatchRendered(BoxPattern, [w, l, h], u);
    SearchAtStart(BoxPattern, s);
  }

  // ---------------------------------------------------------------------------
  // Numeric checks
  // ---------------------------------------------------------------------------

  /** The float coercion: a number, or nothing for an absent or unparsable value. */
  function SafeFloat(v: Cell): (r: Option<real>)
    ensures r.Some? <==> v.Num?
    ensures r.Some? ==> r.value == v.value
  {
    match v
    case Num(x) => Some(x)
    case _ => None
  }

  /** The tallest height in centimetres the row's own height column may claim. */
  const MaxHeightCm: real := 400.0

  /** A floor-demand ratio is kept when it is a positive number. */
  function NormalizeRatio(v: Cell): (r: Checked)
    ensures r.Accepted? <==> v.Num? && v.value > 0.0
    ensures r.Accepted? ==> r.value == v.value
    ensures !v.Num? ==> r == Rejected("ratio_missing")
    ensures v.Num? && v.value <= 0.0 ==> r == Rejected("ratio_nonpositive")
  {
    match SafeFloat(v)
    case None => Rejected("ratio_missing")
    case Some(x) => if x <= 0.0 then Rejected("ratio_nonpositive") else Accepted(x)
  }

  /** A height in centimetres is kept when it is positive and at most 400. */
  function NormalizeHeightCm(v: Cell): (r: Checked)
    ensures r.Accepted? <==> v.Num? && 0.0 < v.value <= MaxHeightCm
    ensures r.Accepted? ==> r.value == v.value
    ensures !v.Num? ==> r == Rejected("height_missing")
    ensures v.Num? && v.value <= 0.0 ==> r == Rejected("height_nonpositive")
    ensures v.Num? && v.value > MaxHeightCm ==> r == Rejected("height_too_large")
  {
    match SafeFloat(v)
    case None => Rejected("height_missing")
    case Some(h) =>
      if h <= 0.0 then Rejected("height_nonpositive")
      else if h > MaxHeightCm then Rejected("height_too_large")
      else Accepted(h)
  }

  // ---------------------------------------------------------------------------
  // The row, stage by stage
  // ---------------------------------------------------------------------------

  /** The unit's identity: drop container id, else SSCC, else the row id, else "UNKNOWN". */
  function PalletId(row: Row): (id: string)
    ensures Given(row.dropContainerId) ==> id == row.dropContainerId.value
    ensures !Given(row.dropContainerId) && Given(row.sscc) ==> id == row.sscc.value
    ensures !Given(row.dropContainerId) && !Given(row.sscc) ==> id == row.id.GetOr("UNKNOWN")
  {
    match Or(Or(row.dropContainerId, row.sscc), row.id)
    case Some(x) => x
    case None => "UNKNOWN"
  }

  /** The pallet-type column with a missing value read as empty. */
  function RawType(row: Row): string {
    Or(row.palletType, Some("")).value
  }

  /** The standard pallet assumed for a type nobody understands, in metres. */
  const FallbackWidth: real := 0.80
  const FallbackLength: real := 1.20
  /** The height assumed when nothing else gives one, in metres. */
  const FallbackHeight: real := 1.20

  datatype Dims = Dims(width: real, length: real, typeHeight: Option<real>, status: string)

  /** Footprint and type height: the tare catalog first, then the type string, then the standard pallet. */
  function DimsFor(catalog: map<string, TareEntry>, raw: string): (d: Dims)
    ensures d.status in {"dims_from_tara_catalog", "dims_from_pallet_type", "unknown_pallet_type"}
    ensures LookupTara(catalog, Some(raw)).Some? ==>
      (var t := LookupTara(catalog, Some(raw)).value;
       d == Dims(t.width / 100.0, t.length / 100.0, None, "dims_from_tara_catalog"))
    ensures LookupTara(catalog, Some(raw)).None? && ParsePalletType(raw).Some? ==>
      (var p := ParsePalletType(raw).value;
       d == Dims(p.0, p.1, p.2, "dims_from_pallet_type"))
    ensures LookupTara(catalog, Some(raw)).None? && ParsePalletType(raw).None? ==>
      d == Dims(FallbackWidth, FallbackLength, None, "unknown_pallet_type")
  {
    match LookupTara(catalog, Some(raw))
    case Some(t) => Dims(t.width / 100.0, t.length / 100.0, None, "dims_from_tara_catalog")
    case None =>
      match ParsePalletType(raw)
      case Some(p) => Dims(p.0, p.1, p.2, "dims_from_pallet_type")
      case None => Dims(FallbackWidth, FallbackLength, None, "unknown_pallet_type")
  }

  /** Two spellings of a catalogued code give the same footprint and the same provenance. */
  lemma CatalogDimsIgnoreSpelling(catalog: map<string, TareEntry>, a: string, b: string)
    requires NormalizeCodeKey(Some(a)) == NormalizeCodeKey(Some(b))
    requires LookupTara(catalog, Some(a)).Some?
    ensures DimsFor(catalog, a) == DimsFor(catalog, b)
  {
  }

  /** The height in metres and the status trail so far. */
  datatype HeightPick = HeightPick(metres: real, trail: seq<string>)

  /**
    Height: the row's own height when plausible, else the volume over the
    footprint, else the type's height, else the default. The trail starts
    with the dimension provenance, which a plausible row height replaces
    unless the type was not understood.
   */
  function PickHeight(d: Dims, height: Cell, volume: Cell): (p: HeightPick)
    requires d.status in {"dims_from_tara_catalog", "dims_from_pallet_type", "unknown_pallet_type"}
    ensures |p.trail| >= 1
    ensures "height_from_db" in p.trail <==> NormalizeHeightCm(height).Accepted?
    ensures "ratio_from_area" !in p.trail
    ensures NormalizeHeightCm(height).Accepted? ==> p.metres == NormalizeHeightCm(height).value / 100.0
    ensures NormalizeHeightCm(height).Accepted? && d.status != "unknown_pallet_type" ==> p.trail == ["height_from_db"]
    ensures NormalizeHeightCm(height).Rejected? ==>
      |p.trail| == 3 && p.trail[0] == d.status && p.trail[1] == NormalizeHeightCm(height).reason
    ensures NormalizeHeightCm(height).Rejected? && volume.Num? ==>
      (if d.width * d.length > 0.0
       then p.metres == volume.value / (d.width * d.length) && p.trail[2] == "height_from_volume"
       else p.metres == FallbackHeight && p.trail[2] == "no_base_area")
    ensures NormalizeHeightCm(height).Rejected? && !volume.Num? && d.typeHeight.Some? ==>
      p.metres == d.typeHeight.value && p.trail[2] == "height_from_type"
    ensures NormalizeHeightCm(height).Rejected? && !volume.Num? && d.typeHeight.None? ==>
      p.metres == FallbackHeight && p.trail[2] == "no_height_no_volume"
  {
    match NormalizeHeightCm(height)
    case Accepted(cm) =>
      if d.status in {"ok", "dims_from_tara_catalog", "dims_from_pallet_type"}
      then HeightPick(cm / 100.0, ["height_from_db"])
      else HeightPick(cm / 100.0, [d.status, "height_from_db"])
    case Rejected(reason) =>
      var trail := [d.status, reason];
      match SafeFloat(volume)
      case Some(vol) =>
        var baseArea := d.width * d.length;
        if baseArea > 0.0 then HeightPick(vol / baseArea, trail + ["height_from_volume"])
        else HeightPick(FallbackHeight, trail + ["no_base_area"])
      case None =>
        match d.typeHeight
        case Some(th) => HeightPick(th, trail + ["height_from_type"])
        case None => HeightPick(FallbackHeight, trail + ["no_height_no_volume"])
  }

  /** The weight: the row's own, else the catalog's tare weight, else zero. */
  function PickWeight(weight: Cell, tare: Option<TareEntry>): (w: real)
    ensures weight.Num? ==> w == weight.value
    ensures !weight.Num? && tare.Some? ==> w == tare.value.weight
    ensures !weight.Num? && tare.None? ==> w == 0.0
  {
    match SafeFloat(weight)
    case Some(x) => x
    case None =>
      match tare
      case Some(t) => t.weight
      case None => 0.0
  }

  /** The footprint in square metres standing in for a missing ratio, or 1 when the footprint is empty. */
  function AreaRatio(width: real, length: real): (r: real)
    ensures r > 0.0
    ensures width * length > 0.0 ==> r == width * length
  {
    var area := width * length;
    if area > 0.0 then area else 1.0
  }

  /** The full status trail: the height stage's, then the ratio fallback when the row's ratio is unusable. */
  function Provenance(row: Row, catalog: map<string, TareEntry>): (trail: seq<string>)
    ensures |trail| >= 1
    ensures "height_from_db" in trail <==> NormalizeHeightCm(row.height).Accepted?
    ensures "ratio_from_area" in trail <==> NormalizeRatio(row.ratio).Rejected?
    ensures NormalizeRatio(row.ratio).Rejected? ==>
      |trail| >= 3 && trail[|trail| - 2] == NormalizeRatio(row.ratio).reason
    ensures NormalizeHeightCm(row.height).Rejected? ==>
      (&& |trail| >= 3
       && trail[0] == DimsFor(catalog, RawType(row)).status
       && trail[1] == NormalizeHeightCm(row.height).reason)
  {
    var d := DimsFor(catalog, RawType(row));
    var h := PickHeight(d, row.height, row.volume);
    var ratio := NormalizeRatio(row.ratio);
    if ratio.Accepted? then h.trail
    else
      var trail := h.trail + [ratio.reason, "ratio_from_area"];
      assert trail[..|h.trail|] == h.trail;
      trail
  }

  /** The numbers a row yields: footprint, height and weight, and the floor-demand ratio. */
  datatype Measures = Measures(width: real, length: real, height: real, weight: real, ratio: real)

  /** The ratio is the row's own when positive, else the footprint area, else 1; it is always positive. */
  function MeasureRow(row: Row, catalog: map<string, TareEntry>): (m: Measures)
    ensures m.ratio > 0.0
    ensures NormalizeRatio(row.ratio).Accepted? ==> m.ratio == row.ratio.value
  {
    var raw := RawType(row);
    var d := DimsFor(catalog, raw);
    var h := PickHeight(d, row.height, row.volume);
    var ratio := match NormalizeRatio(row.ratio)
      case Accepted(r) => r
      case Rejected(_) => AreaRatio(d.width, d.length);
    Measures(d.width, d.length, h.metres, PickWeight(row.weight, LookupTara(catalog, Some(raw))), ratio)
  }

  /** Turns one database row into a cargo unit. */
  function NormalizePallet(row: Row, catalog: map<string, TareEntry>): (it: Item)
    ensures it.id == PalletId(row)
    ensures it.dropContainerId == Some(it.id)
    ensures it.ratio.Some? && it.ratio.value > 0.0
    ensures NormalizeRatio(row.ratio).Accepted? ==> it.ratio == Some(row.ratio.value)
    ensures it.canBeBase && it.canBeStacked
    ensures it.palletType == row.palletType
  {
    PalletWithStatus(row, catalog, Join(Provenance(row, catalog), "|"))
  }

  /** The unit a row gives, with its status trail already joined. */
  function PalletWithStatus(row: Row, catalog: map<string, TareEntry>, status: string): (it: Item)
    ensures it.id == PalletId(row)
    ensures it.dropContainerId == Some(it.id)
    ensures it.ratio.Some? && it.ratio.value > 0.0
    ensures NormalizeRatio(row.ratio).Accepted? ==> it.ratio == Some(row.ratio.value)
    ensures it.canBeBase && it.canBeStacked
    ensures it.palletType == row.palletType && it.status == status
  {
    var raw := RawType(row);
    var id := PalletId(row);
    var m := MeasureRow(row, catalog);
    var flags := StackFlags(NoStackRules, Some(raw));
    Item(
      id := id,
      taskId := Some(Or(Or(row.recordId, row.taskId), Some("")).value),
      routeId := Some(Or(row.routeId, Some("")).value),
      transportType := Some(Or(row.transportType, Some("")).value),
      dropContainerId := Some(Or(row.dropContainerId, Some(id)).value),
      providerId := row.providerId,
      providerName := row.providerName,
      palletType := row.palletType,
      palletTypeNorm := Some(NormalizeCodeKey(Some(raw))),
      width := m.width,
      length := m.length,
      height := m.height,
      weight := m.weight,
      ratio := Some(m.ratio),
      canBeBase := flags.0,
      canBeStacked := flags.1,
      status := status)
  }

  /** The missing and empty pallet types read the same, so the raw column and the row give one key. */
  lemma RawTypeKey(row: Row)
    ensures NormalizeCodeKey(Some(RawType(row))) == NormalizeCodeKey(row.palletType)
  {
  }

  /**
    The unit's footprint and height come from the dimension and height
    stages, its weight from the row or the tare, its ratio from the row or
    the footprint, and its normalised type is a fixed point of the key
    normalisation.
   */
  lemma NormalizedMeasures(row: Row, catalog: map<string, TareEntry>)
    ensures var it := NormalizePallet(row, catalog);
      var d := DimsFor(catalog, RawType(row));
      && it.width == d.width && it.length == d.length
      && it.height == PickHeight(d, row.height, row.volume).metres
      && it.weight == PickWeight(row.weight, LookupTara(catalog, Some(RawType(row))))
      && (NormalizeRatio(row.ratio).Rejected? ==> it.ratio == Some(AreaRatio(d.width, d.length)))
  {
  }

  /** The normalised type is the key of the row's type, and normalising it again changes nothing. */
  lemma NormalizedTypeKey(row: Row, catalog: map<string, TareEntry>)
    ensures NormalizePallet(row, catalog).palletTypeNorm == Some(NormalizeCodeKey(row.palletType))
    ensures NormalizeCodeKey(NormalizePallet(row, catalog).palletTypeNorm) == NormalizeCodeKey(row.palletType)
  {
    RawTypeKey(row);
    NormalizeCodeKeyIdempotent(row.palletType);
  }

  /** The unit's status is the '|'-joined provenance trail. */
  lemma NormalizedStatus(row: Row, catalog: map<string, TareEntry>)
    ensures NormalizePallet(row, catalog).status == Join(Provenance(row, catalog), "|")
  {
  }

  /** The status trail grows by "|" and the next token, as the code's string appends do. */
  lemma StatusAppends(trail: seq<string>, token: string)
    requires |trail| >= 1
    ensures Join(trail + [token], "|") == Join(trail, "|") + "|" + token
  {
    JoinSnoc(trail, "|", token);
  }

  /** Every token of the trail shows up in the unit's status text. */
  lemma StatusMentionsTrail(row: Row, catalog: map<string, TareEntry>, k: nat)
    requires k < |Provenance(row, catalog)|
    ensures HasSubstring(NormalizePallet(row, catalog).status, Provenance(row, catalog)[k])
  {
    JoinContains(Provenance(row, catalog), "|", k);
  }

  /** A plausible row height is the one the unit keeps, and the status says so. */
  lemma RowHeightWins(row: Row, catalog: map<string, TareEntry>)
    requires row.height.Num? && 0.0 < row.height.value <= MaxHeightCm
    ensures NormalizePallet(row, catalog).height == row.height.value / 100.0
    ensures HasSubstring(NormalizePallet(row, catalog).status, "height_from_db")
  {
    var trail := Provenance(row, catalog);
    var k :| 0 <= k < |trail| && trail[k] == "height_from_db";
    StatusMentionsTrail(row, catalog, k);
  }
}
