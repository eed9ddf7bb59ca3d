/** Version strings, compared once by the C++ update checker and once by the Rust launcher. The two
    tokenizers differ; the comparison of the resulting number lists is the same. */
module VersionOrdering {
  import opened CharClasses
  import opened Decimals
  import opened Wrappers

  // ----- The order on component lists -----

  /** A component, where missing trailing ones count as zero. */
  function Part(parts: seq<int>, i: nat): int {
    if i < |parts| then parts[i] else 0
  }

  ghost predicate AgreeBelow(a: seq<int>, b: seq<int>, n: nat) {
    forall i: nat :: i < n ==> Part(a, i) == Part(b, i)
  }

  /** The first differing component decides. */
  ghost predicate Newer(a: seq<int>, b: seq<int>) {
    exists i: nat :: Part(a, i) > Part(b, i) && AgreeBelow(a, b, i)
  }

  ghost predicate SameVersion(a: seq<int>, b: seq<int>) {
    forall i: nat :: Part(a, i) == Part(b, i)
  }

  lemma Irreflexive(a: seq<int>)
    ensures !Newer(a, a)
  {
  }

  lemma Asymmetric(a: seq<int>, b: seq<int>)
    requires Newer(a, b)
    ensures !Newer(b, a)
  {
    var i: nat :| Part(a, i) > Part(b, i) && AgreeBelow(a, b, i);
  }

  lemma Transitive(a: seq<int>, b: seq<int>, c: seq<int>)
    requires Newer(a, b) && Newer(b, c)
    ensures Newer(a, c)
  {
    var i: nat :| Part(a, i) > Part(b, i) && AgreeBelow(a, b, i);
    var j: nat :| Part(b, j) > Part(c, j) && AgreeBelow(b, c, j);
    var k := if i < j then i else j;
    assert Part(a, k) > Part(c, k) && AgreeBelow(a, c, k);
  }

  /** Lists that agree below n either agree further up or are ordered. */
  lemma {:induction false} Trichotomy(a: seq<int>, b: seq<int>, n: nat)
    requires AgreeBelow(a, b, n)
    ensures Newer(a, b) || Newer(b, a) || SameVersion(a, b)
    decreases |a| + |b| - n
  {
    if n < |a| + |b| {
      if Part(a, n) == Part(b, n) {
        Trichotomy(a, b, n + 1);
      } else if Part(a, n) > Part(b, n) {
        assert Newer(a, b);
      } else {
        assert AgreeBelow(b, a, n);
        assert Newer(b, a);
      }
    } else {
      assert SameVersion(a, b);
    }
  }

  /** Incomparable means equal after padding with zeros, so incomparability is transitive whatever the
      three lengths are. */
  lemma IncomparableMeansSame(a: seq<int>, b: seq<int>)
    ensures (!Newer(a, b) && !Newer(b, a)) <==> SameVersion(a, b)
  {
    Trichotomy(a, b, 0);
  }

  /** Versions that differ in trailing zeros only can replace each other in every comparison. */
  lemma PaddingIsIrrelevant(a: seq<int>, a': seq<int>, b: seq<int>, b': seq<int>)
    requires SameVersion(a, a') && SameVersion(b, b')
    ensures Newer(a, b) == Newer(a', b')
  {
    if Newer(a, b) {
      var i: nat :| Part(a, i) > Part(b, i) && AgreeBelow(a, b, i);
      assert Part(a', i) > Part(b', i) && AgreeBelow(a', b', i);
    }
    if Newer(a', b') {
      var i: nat :| Part(a', i) > Part(b', i) && AgreeBelow(a', b', i);
      assert Part(a, i) > Part(b, i) && AgreeBelow(a, b, i);
    }
  }

  /** The greater number at the first difference is newer, whatever follows; and a longer list is newer if
      what it has more is positive. */
  lemma FirstDifferenceDecides(common: seq<int>, x: int, y: int, a: seq<int>, b: seq<int>)
    ensures x > y ==> Newer(common + [x] + a, common + [y] + b) && !Newer(common + [y] + b, common + [x] + a)
    ensures x > 0 ==> Newer(common + [x] + a, common) && !Newer(common, common + [x] + a)
  {
    var p, q, n := common + [x] + a, common + [y] + b, |common|;
    if x > y {
      assert Part(p, n) > Part(q, n) && AgreeBelow(p, q, n);
      Asymmetric(p, q);
    }
    if x > 0 {
      assert Part(p, n) > Part(common, n) && AgreeBelow(p, common, n);
      Asymmetric(p, common);
    }
  }

  /** The in-place resize with zeros and the index loop both programs share. */
  method CompareParts(candidate: seq<int>, current: seq<int>) returns (newer: bool)
    ensures newer <==> Newer(candidate, current)
  {
    var n := if |candidate| > |current| then |candidate| else |current|;
    var a := candidate + seq(n - |candidate|, _ => 0);
    var b := current + seq(n - |current|, _ => 0);
    for i := 0 to n
      invariant AgreeBelow(candidate, current, i)
    {
      assert a[i] == Part(candidate, i) && b[i] == Part(current, i);
      if a[i] > b[i] {
        return true;
      }
      if a[i] < b[i] {
        assert Newer(current, candidate) by {
          assert AgreeBelow(current, candidate, i);
        }
        Asymmetric(current, candidate);
        return false;
      }
    }
    assert SameVersion(candidate, current);
    IncomparableMeansSame(candidate, current);
    return false;
  }

  // ----- Numerals -----

  const INT_MAX := 0x7FFF_FFFF
  const INT_MIN := -0x8000_0000

  /** The longest prefix of digits. */
  function DigitPrefix(s: string): (d: string)
    ensures AllDigits(d) && d <= s && (|d| < |s| ==> !IsDigit(s[|d|]))
  {
    if s != "" && IsDigit(s[0]) then [s[0]] + DigitPrefix(s[1..]) else ""
  }

  predicate Signed(s: string) {
    s != "" && (s[0] == '+' || s[0] == '-')
  }

  function Unsigned(s: string): string {
    if Signed(s) then s[1..] else s
  }

  /** A signed numeral's value if it fits 32 bits. */
  function InRange(negative: bool, magnitude: nat): Option<int> {
    var v: int := if negative then 0 - magnitude else magnitude;
    if INT_MIN <= v <= INT_MAX then Some(v) else None
  }

  /** `std::stoi`: leading space, a sign, then as many digits as there are; the rest is ignored. */
  function Stoi(token: string): Option<int> {
    var t := SkipSpaces(token);
    var digits := DigitPrefix(Unsigned(t));
    if digits == "" then None else InRange(t[0] == '-', Value(digits))
  }

  /** The exceptions of `std::stoi` become a zero component. */
  function CppPart(token: string): int {
    match Stoi(token)
    case Some(v) => v
    case None => 0
  }

  /** An optional sign and at least one digit, nothing else. */
  predicate StrictNumeral(token: string) {
    Unsigned(token) != "" && AllDigits(Unsigned(token))
  }

  /** `str::parse::<i32>`, with an error read as zero. */
  function RustPart(token: string): int {
    if !StrictNumeral(token) then 0
    else
      match InRange(token[0] == '-', Value(Unsigned(token)))
      case Some(v) => v
      case None => 0
  }

  lemma {:induction false} DigitPrefixOfDigits(s: string)
    requires AllDigits(s)
    ensures DigitPrefix(s) == s
  {
    if s != "" {
      DigitPrefixOfDigits(s[1..]);
    }
  }

  lemma StrictNumeralsAgree(token: string)
    requires StrictNumeral(token)
    ensures CppPart(token) == RustPart(token)
  {
    DigitPrefixOfDigits(Unsigned(token));
    assert !IsSpace(token[0]) by {
      if !Signed(token) {
        assert IsDigit(token[0]);
      }
    }
  }

  /** A leading numeral that is absent, zero or outside 32 bits, which C++ reads as zero. */
  predicate NumberIgnored(token: string) {
    var t := SkipSpaces(token);
    var digits := DigitPrefix(Unsigned(t));
    digits == "" || Value(digits) == 0 || Value(digits) > if t[0] == '-' then 0x8000_0000 else INT_MAX
  }

  lemma CppZeroIff(token: string)
    ensures CppPart(token) == 0 <==> NumberIgnored(token)
  {
  }

  /** The two readings of a token agree exactly on strict numerals and where C++ finds no number. */
  lemma TokensAgreeIff(token: string)
    ensures CppPart(token) == RustPart(token) <==> StrictNumeral(token) || NumberIgnored(token)
  {
    CppZeroIff(token);
    if StrictNumeral(token) {
      StrictNumeralsAgree(token);
    }
  }

  lemma RustZeroIff(token: string)
    ensures RustPart(token) == 0 <==> !StrictNumeral(token) || NumberIgnored(token)
  {
    CppZeroIff(token);
    if StrictNumeral(token) {
      StrictNumeralsAgree(token);
    }
  }

  lemma PartsAreInts(token: string)
    ensures INT_MIN <= CppPart(token) <= INT_MAX && INT_MIN <= RustPart(token) <= INT_MAX
  {
  }

  // ----- Splitting at dots -----

  /** The part before the first dot. */
  function FirstToken(s: string): (t: string)
    ensures t <= s && '.' !in t && (|t| < |s| ==> s[|t|] == '.')
  {
    if s == "" || s[0] == '.' then "" else [s[0]] + FirstToken(s[1..])
  }

  /** Rust's `split('.')`: k dots make k + 1 tokens. */
  function Split(s: string): seq<string>
    decreases |s|
  {
    var t := FirstToken(s);
    if |t| == |s| then [t] else [t] + Split(s[|t| + 1..])
  }

  /** C++'s `getline` loop: the text after a final dot is not a token. */
  function GetlineTokens(s: string): seq<string>
    decreases |s|
  {
    if s == "" then []
    else
      var t := FirstToken(s);
      if |t| == |s| then [t] else [t] + GetlineTokens(s[|t| + 1..])
  }

  /** The tokenizers differ by at most one empty token at the end. */
  lemma {:induction false} GetlineDropsOneEmptyToken(s: string)
    ensures var all := Split(s);
            && all != []
            && GetlineTokens(s) == if all[|all| - 1] == "" then all[..|all| - 1] else all
    decreases |s|
  {
    var t := FirstToken(s);
    if s != "" && |t| < |s| {
      var rest := s[|t| + 1..];
      GetlineDropsOneEmptyToken(rest);
      assert ([t] + Split(rest))[..|Split(rest)|] == [t] + Split(rest)[..|Split(rest)| - 1];
    }
  }

  predicate IsV(c: char) {
    c == 'v' || c == 'V'
  }

  function StripOne(s: string): string {
    if s != "" && IsV(s[0]) then s[1..] else s
  }

  function StripAll(s: string): string {
    if s != "" && IsV(s[0]) then StripAll(s[1..]) else s
  }

  /** The tokens, each read as a number. */
  function Values(read: string -> int, tokens: seq<string>): seq<int> {
    seq(|tokens|, i requires 0 <= i < |tokens| => read(tokens[i]))
  }

  lemma ValuesCons(read: string -> int, t: string, tokens: seq<string>)
    ensures Values(read, [t] + tokens) == [read(t)] + Values(read, tokens)
  {
  }

  function CppParts(version: string): seq<int> {
    Values(CppPart, GetlineTokens(StripOne(version)))
  }

  function RustParts(version: string): seq<int> {
    Values(RustPart, Split(StripAll(version)))
  }

  /** The text after the first token and its dot. */
  function RestOf(s: string): string {
    var k := |FirstToken(s)|;
    if k < |s| then s[k + 1..] else ""
  }

  /** `parts` holds the values read so far and `rest` is the unread text. */
  ghost predicate Reading(all: seq<int>, parts: seq<int>, rest: string) {
    all == parts + Values(CppPart, GetlineTokens(rest))
  }

  lemma StartReading(version: string)
    ensures Reading(CppParts(version), [], StripOne(version))
  {
  }

  lemma ReadOne(all: seq<int>, parts: seq<int>, rest: string)
    requires Reading(all, parts, rest) && rest != ""
    ensures Reading(all, parts + [CppPart(FirstToken(rest))], RestOf(rest))
  {
    var t := FirstToken(rest);
    var tail := GetlineTokens(RestOf(rest));
    assert GetlineTokens(rest) == [t] + tail;
    ValuesCons(CppPart, t, tail);
    assert parts + ([CppPart(t)] + Values(CppPart, tail)) == parts + [CppPart(t)] + Values(CppPart, tail);
  }

  /** One `getline`: the text up to the next dot, and what follows it. */
  method NextToken(s: string) returns (token: string, rest: string)
    ensures token == FirstToken(s) && rest == RestOf(s) && (s != "" ==> |rest| < |s|)
  {
    var k := 0;
    while k < |s| && s[k] != '.'
      invariant k <= |s| && |FirstToken(s)| == k + |FirstToken(s[k..])|
    {
      k := k + 1;
    }
    token, rest := s[..k], if k < |s| then s[k + 1..] else "";
  }

  method ParseVersionParts(version: string) returns (parts: seq<int>)
    ensures parts == CppParts(version)
  {
    var rest := StripOne(version);
    parts := [];
    StartReading(version);
    while rest != ""
      invariant Reading(CppParts(version), parts, rest)
      decreases |rest|
    {
      ReadOne(CppParts(version), parts, rest);
      var token, later := NextToken(rest);
      parts, rest := parts + [CppPart(token)], later;
    }
  }

  /** The update checker of the server. */
  method IsVersionNewer(candidate: string, current: string) returns (newer: bool)
    ensures newer <==> Newer(CppParts(candidate), CppParts(current))
  {
    var a := ParseVersionParts(candidate);
    var b := ParseVersionParts(current);
    newer := CompareParts(a, b);
  }

  /** The update check of the launcher. */
  method IsNewerVersion(latest: string, current: string) returns (newer: bool)
    ensures newer <==> Newer(RustParts(latest), RustParts(current))
  {
    newer := CompareParts(RustParts(latest), RustParts(current));
  }

  /** On arbitrary strings the C++ verdict is a strict weak order. */
  lemma CppOrderIsStrictWeak(x: string, y: string, z: string)
    ensures !Newer(CppParts(x), CppParts(x))
    ensures !(Newer(CppParts(x), CppParts(y)) && Newer(CppParts(y), CppParts(x)))
    ensures Newer(CppParts(x), CppParts(y)) && Newer(CppParts(y), CppParts(z)) ==> Newer(CppParts(x), CppParts(z))
    ensures !Newer(CppParts(x), CppParts(y)) && !Newer(CppParts(y), CppParts(x))
            && !Newer(CppParts(y), CppParts(z)) && !Newer(CppParts(z), CppParts(y)) ==>
              !Newer(CppParts(x), CppParts(z)) && !Newer(CppParts(z), CppParts(x))
  {
    var a, b, c := CppParts(x), CppParts(y), CppParts(z);
    if Newer(a, b) {
      Asymmetric(a, b);
      if Newer(b, c) {
        Transitive(a, b, c);
      }
    }
    IncomparableMeansSame(a, b);
    IncomparableMeansSame(b, c);
    IncomparableMeansSame(a, c);
    assert SameVersion(a, b) && SameVersion(b, c) ==> SameVersion(a, c);
  }

  // ----- Numerals as tokens -----

  datatype Sign = NoSign | Plus | Minus

  /** A signed decimal number with any number of zeros in front. */
  datatype Numeral = Numeral(sign: Sign, zeros: nat, magnitude: nat)

  function SignText(sign: Sign): string {
    match sign
    case NoSign => ""
    case Plus => "+"
    case Minus => "-"
  }

  function Digits(n: Numeral): (d: string)
    ensures d != "" && AllDigits(d)
  {
    Zeros(n.zeros) + Decimal(n.magnitude)
  }

  function Text(n: Numeral): (t: string)
    ensures t != ""
  {
    SignText(n.sign) + Digits(n)
  }

  /** The number meant, or zero if it does not fit 32 bits. */
  function Number(n: Numeral): int {
    var v: int := if n.sign == Minus then 0 - n.magnitude else n.magnitude;
    if -0x8000_0000 <= v <= 0x7FFF_FFFF then v else 0
  }

  lemma DigitsMean(n: Numeral)
    ensures Value(Digits(n)) == n.magnitude
  {
    ValueOfDecimal(n.magnitude);
    ZerosDoNotCount(n.zeros, Decimal(n.magnitude));
  }

  lemma TextParts(n: Numeral)
    ensures Unsigned(Text(n)) == Digits(n) && StrictNumeral(Text(n))
    ensures Text(n)[0] == '-' <==> n.sign == Minus
    ensures !IsSpace(Text(n)[0]) && !IsV(Text(n)[0]) && '.' !in Text(n)
  {
    var digits := Digits(n);
    assert IsDigit(digits[0]);
    match n.sign {
      case NoSign => assert Text(n) == digits;
      case Plus => assert Text(n)[0] == '+' && Text(n)[1..] == digits;
      case Minus => assert Text(n)[0] == '-' && Text(n)[1..] == digits;
    }
  }

  lemma {:induction false} DigitPrefixStops(digits: string, suffix: string)
    requires AllDigits(digits) && (suffix == "" || !IsDigit(suffix[0]))
    ensures DigitPrefix(digits + suffix) == digits
  {
    if digits != "" {
      assert (digits + suffix)[1..] == digits[1..] + suffix;
      DigitPrefixStops(digits[1..], suffix);
    } else {
      assert digits + suffix == suffix;
    }
  }

  lemma {:induction false} SkipLeadingSpaces(spaces: string, t: string)
    requires (forall i :: 0 <= i < |spaces| ==> IsSpace(spaces[i])) && (t == "" || !IsSpace(t[0]))
    ensures SkipSpaces(spaces + t) == t
  {
    if spaces == "" {
      assert spaces + t == t;
    } else {
      assert (spaces + t)[1..] == spaces[1..] + t;
      SkipLeadingSpaces(spaces[1..], t);
    }
  }

  lemma StoiOf(t: string, digits: string, suffix: string)
    requires t != "" && !IsSpace(t[0]) && Unsigned(t) == digits + suffix
    requires digits != "" && AllDigits(digits) && (suffix == "" || !IsDigit(suffix[0]))
    ensures Stoi(t) == InRange(t[0] == '-', Value(digits))
  {
    DigitPrefixStops(digits, suffix);
    assert SkipSpaces(t) == t;
  }

  lemma StoiSkips(spaces: string, t: string)
    requires (forall i :: 0 <= i < |spaces| ==> IsSpace(spaces[i])) && t != "" && !IsSpace(t[0])
    ensures Stoi(spaces + t) == Stoi(t)
  {
    SkipLeadingSpaces(spaces, t);
    assert SkipSpaces(t) == t;
  }

  lemma TextThenSuffix(n: Numeral, suffix: string)
    ensures var t := Text(n) + suffix; t[0] == Text(n)[0] && Unsigned(t) == Digits(n) + suffix
  {
    TextParts(n);
    if Signed(Text(n)) {
      assert (Text(n) + suffix)[1..] == Text(n)[1..] + suffix;
    }
  }

  /** The server skips white space in front of a numeral and drops whatever follows it; leading zeros and
      either sign are understood. */
  lemma CppReadsNumeral(spaces: string, n: Numeral, suffix: string)
    requires (forall i :: 0 <= i < |spaces| ==> IsSpace(spaces[i])) && (suffix == "" || !IsDigit(suffix[0]))
    ensures CppPart(spaces + (Text(n) + suffix)) == Number(n)
  {
    var t := Text(n) + suffix;
    TextParts(n);
    TextThenSuffix(n, suffix);
    DigitsMean(n);
    StoiOf(t, Digits(n), suffix);
    StoiSkips(spaces, t);
  }

  lemma StrictIsNumeral(t: string) returns (n: Numeral)
    requires StrictNumeral(t)
    ensures Text(n) == t
  {
    var digits := Unsigned(t);
    var zeros := DigitsAreZerosAndDecimal(digits);
    var sign := if !Signed(t) then NoSign else if t[0] == '+' then Plus else Minus;
    n := Numeral(sign, zeros, Value(digits));
    assert Digits(n) == digits;
    assert t == SignText(sign) + digits by {
      if Signed(t) {
        assert t == [t[0]] + t[1..];
      }
    }
  }

  /** The launcher reads numerals, with leading zeros and either sign, and nothing else. */
  lemma RustReadsNumerals(n: Numeral)
    ensures RustPart(Text(n)) == Number(n)
  {
    TextParts(n);
    DigitsMean(n);
  }

  lemma RustReadsOnlyNumerals(t: string)
    requires RustPart(t) != 0
    ensures exists n :: Text(n) == t && RustPart(t) == Number(n)
  {
    var n := StrictIsNumeral(t);
    RustReadsNumerals(n);
  }

  // ----- Tokens between dots -----

  function JoinDots(tokens: seq<string>): string
    requires tokens != []
  {
    if |tokens| == 1 then tokens[0] else tokens[0] + ("." + JoinDots(tokens[1..]))
  }

  lemma {:induction false} FirstTokenStops(t: string, rest: string)
    requires '.' !in t && (rest == "" || rest[0] == '.')
    ensures FirstToken(t + rest) == t
  {
    if t == "" {
      assert t + rest == rest;
    } else {
      assert (t + rest)[1..] == t[1..] + rest;
      FirstTokenStops(t[1..], rest);
    }
  }

  lemma SplitOnce(s: string, t: string)
    requires FirstToken(s) == t && |t| < |s|
    ensures Split(s) == [t] + Split(s[|t| + 1..])
  {
  }

  lemma DropPrefix(p: string, s: string, k: nat)
    requires k <= |s|
    ensures (p + s)[|p| + k..] == s[k..]
  {
  }

  lemma SplitAtDot(t: string, rest: string)
    requires '.' !in t
    ensures Split(t + ("." + rest)) == [t] + Split(rest)
  {
    FirstTokenStops(t, "." + rest);
    SplitOnce(t + ("." + rest), t);
    DropPrefix(t, "." + rest, 1);
    DropPrefix(".", rest, 0);
    assert rest[0..] == rest;
  }

  lemma OneToken(t: string)
    requires '.' !in t
    ensures Split(t) == [t] && (t != "" ==> GetlineTokens(t) == [t])
  {
    FirstTokenStops(t, "");
    assert t + "" == t;
  }

  /** Splitting undoes joining. */
  lemma {:induction false} SplitOfJoin(tokens: seq<string>)
    requires tokens != [] && forall t :: t in tokens ==> '.' !in t
    ensures Split(JoinDots(tokens)) == tokens
    decreases |tokens|
  {
    assert tokens[0] in tokens;
    if |tokens| == 1 {
      OneToken(tokens[0]);
    } else {
      assert tokens == [tokens[0]] + tokens[1..];
      SplitOfJoin(tokens[1..]);
      SplitAtDot(tokens[0], JoinDots(tokens[1..]));
    }
  }

  lemma JoinCons(t: string, tokens: seq<string>)
    requires tokens != []
    ensures JoinDots([t] + tokens) == t + ("." + JoinDots(tokens))
  {
    assert ([t] + tokens)[1..] == tokens;
  }

  /** And joining undoes splitting: the tokens of any text, between dots, are the text. */
  lemma {:induction false} JoinOfSplit(s: string)
    ensures Split(s) != [] && JoinDots(Split(s)) == s && forall t :: t in Split(s) ==> '.' !in t
    decreases |s|
  {
    var t := FirstToken(s);
    if |t| < |s| {
      var rest := s[|t| + 1..];
      JoinOfSplit(rest);
      JoinCons(t, Split(rest));
      assert s == t + ("." + rest);
    }
  }

  // ----- Printed versions -----

  function Texts(ns: seq<Numeral>): seq<string> {
    seq(|ns|, i requires 0 <= i < |ns| => Text(ns[i]))
  }

  function Numbers(ns: seq<Numeral>): seq<int> {
    seq(|ns|, i requires 0 <= i < |ns| => Number(ns[i]))
  }

  lemma StripPrefix(prefix: string, body: string)
    requires prefix in {"", "v", "V"} && body != "" && !IsV(body[0])
    ensures StripOne(prefix + body) == body == StripAll(prefix + body)
  {
    if prefix == "" {
      assert prefix + body == body;
    } else {
      assert (prefix + body)[1..] == body && (prefix + body)[0] == prefix[0];
    }
  }

  lemma FirstOfJoin(tokens: seq<string>)
    requires tokens != [] && tokens[0] != ""
    ensures JoinDots(tokens) != "" && JoinDots(tokens)[0] == tokens[0][0]
  {
  }

  lemma JoinedTokens(tokens: seq<string>)
    requires tokens != [] && forall t :: t in tokens ==> t != "" && '.' !in t
    ensures Split(JoinDots(tokens)) == tokens == GetlineTokens(JoinDots(tokens))
  {
    SplitOfJoin(tokens);
    GetlineDropsOneEmptyToken(JoinDots(tokens));
    assert tokens[|tokens| - 1] in tokens;
  }

  lemma ValuesOfTexts(read: string -> int, ns: seq<Numeral>)
    requires forall i :: 0 <= i < |ns| ==> read(Text(ns[i])) == Number(ns[i])
    ensures Values(read, Texts(ns)) == Numbers(ns)
  {
  }

  /** Numerals between dots, behind at most one v, are read as their numbers by both programs: zeros in
      front do not count, both signs are understood, and what does not fit 32 bits is zero. */
  lemma DottedNumeralsAreRead(prefix: string, ns: seq<Numeral>)
    requires prefix in {"", "v", "V"} && ns != []
    ensures CppParts(prefix + JoinDots(Texts(ns))) == Numbers(ns)
    ensures RustParts(prefix + JoinDots(Texts(ns))) == Numbers(ns)
  {
    var tokens := Texts(ns);
    forall i | 0 <= i < |ns|
      ensures '.' !in tokens[i] && !IsV(tokens[i][0]) && CppPart(tokens[i]) == Number(ns[i]) == RustPart(tokens[i])
    {
      TextParts(ns[i]);
      CppReadsNumeral("", ns[i], "");
      assert "" + (Text(ns[i]) + "") == Text(ns[i]);
      RustReadsNumerals(ns[i]);
    }
    FirstOfJoin(tokens);
    StripPrefix(prefix, JoinDots(tokens));
    JoinedTokens(tokens);
    ValuesOfTexts(CppPart, ns);
    ValuesOfTexts(RustPart, ns);
  }

  predicate IsInt32(v: int) {
    -0x8000_0000 <= v <= 0x7FFF_FFFF
  }

  function Canonical(v: int): Numeral {
    Numeral(if v < 0 then Minus else NoSign, 0, if v < 0 then -v else v)
  }

  function Canonicals(parts: seq<int>): seq<Numeral> {
    seq(|parts|, i requires 0 <= i < |parts| => Canonical(parts[i]))
  }

  /** Components in decimal, separated by dots. */
  function PrintVersion(parts: seq<int>): string
    requires parts != []
  {
    JoinDots(Texts(Canonicals(parts)))
  }

  /** So both programs order such versions as their numbers are ordered. */
  lemma DottedNumeralsCompare(p: string, ns: seq<Numeral>, q: string, ms: seq<Numeral>)
    requires p in {"", "v", "V"} && q in {"", "v", "V"} && ns != [] && ms != []
    ensures var x, y := p + JoinDots(Texts(ns)), q + JoinDots(Texts(ms));
      && (Newer(CppParts(x), CppParts(y)) <==> Newer(Numbers(ns), Numbers(ms)))
      && (Newer(RustParts(x), RustParts(y)) <==> Newer(Numbers(ns), Numbers(ms)))
  {
    DottedNumeralsAreRead(p, ns);
    DottedNumeralsAreRead(q, ms);
  }

  lemma DottedWithoutPrefix(ns: seq<Numeral>)
    requires ns != []
    ensures CppParts(JoinDots(Texts(ns))) == Numbers(ns) == RustParts(JoinDots(Texts(ns)))
  {
    DottedNumeralsAreRead("", ns);
    assert "" + JoinDots(Texts(ns)) == JoinDots(Texts(ns));
  }

  lemma NumbersAround(common: seq<Numeral>, n: Numeral, a: seq<Numeral>)
    ensures Numbers(common + [n] + a) == Numbers(common) + [Number(n)] + Numbers(a)
  {
  }

  /** In text: the version whose first differing numeral is greater is newer for both programs. */
  lemma GreaterNumeralIsNewer(
    common: seq<Numeral>, n: Numeral, m: Numeral, a: seq<Numeral>, b: seq<Numeral>, x: string, y: string)
    requires Number(n) > Number(m)
    requires x == JoinDots(Texts(common + [n] + a)) && y == JoinDots(Texts(common + [m] + b))
    ensures Newer(CppParts(x), CppParts(y)) && !Newer(CppParts(y), CppParts(x))
    ensures Newer(RustParts(x), RustParts(y)) && !Newer(RustParts(y), RustParts(x))
  {
    DottedWithoutPrefix(common + [n] + a);
    DottedWithoutPrefix(common + [m] + b);
    NumbersAround(common, n, a);
    NumbersAround(common, m, b);
    FirstDifferenceDecides(Numbers(common), Number(n), Number(m), Numbers(a), Numbers(b));
  }

  /** Printing components that fit 32 bits, negative ones too, behind at most one v, and reading them back
      is the identity in both programs; so both order printed versions as their numbers are ordered. */
  lemma PrintedVersionsReadBack(prefix: string, parts: seq<int>)
    requires prefix in {"", "v", "V"} && parts != [] && forall i :: 0 <= i < |parts| ==> IsInt32(parts[i])
    ensures CppParts(prefix + PrintVersion(parts)) == parts
    ensures RustParts(prefix + PrintVersion(parts)) == parts
  {
    DottedNumeralsAreRead(prefix, Canonicals(parts));
    assert Numbers(Canonicals(parts)) == parts;
  }

  // ----- Where the two programs agree -----

  /** The i-th token behind the stripped v: a strict numeral or text that C++ reads as zero. Of several v
      the launcher drops all and the server one, so the first token must then be zero for the launcher, too. */
  predicate TokenReadAlike(version: string, token: string, i: nat) {
    NumberIgnored(token)
    || (if i == 0 && StripAll(version) != StripOne(version) then !StrictNumeral(token) else StrictNumeral(token))
  }

  predicate ReadAlike(version: string) {
    var tokens := Split(StripAll(version));
    forall i :: 0 <= i < |tokens| ==> TokenReadAlike(version, tokens[i], i)
  }

  /** An optional v, then non-empty digit runs separated by dots. */
  predicate WellFormed(version: string) {
    forall t :: t in Split(StripOne(version)) ==> t != "" && AllDigits(t)
  }

  lemma WellFormedIsReadAlike(version: string)
    requires WellFormed(version)
    ensures ReadAlike(version)
  {
    var s := StripOne(version);
    var tokens := Split(s);
    var t := FirstToken(s);
    assert tokens[0] == t && t in tokens;
    assert s[0] == t[0] && IsDigit(s[0]);
    assert StripAll(version) == s;
    forall i | 0 <= i < |tokens| ensures StrictNumeral(tokens[i]) {
      assert tokens[i] in tokens;
    }
  }

  /** The token that getline drops is worth zero. */
  lemma GetlineLosesNothing(read: string -> int, s: string)
    requires read("") == 0
    ensures SameVersion(Values(read, GetlineTokens(s)), Values(read, Split(s)))
  {
    GetlineDropsOneEmptyToken(s);
  }

  lemma ValuesAgreeIff(f: string -> int, g: string -> int, a: seq<string>, b: seq<string>)
    requires |a| == |b|
    ensures SameVersion(Values(f, a), Values(g, b)) <==> forall i :: 0 <= i < |a| ==> f(a[i]) == g(b[i])
  {
    if SameVersion(Values(f, a), Values(g, b)) {
      forall i | 0 <= i < |a| ensures f(a[i]) == g(b[i]) {
        assert Part(Values(f, a), i) == Part(Values(g, b), i);
      }
    }
  }

  /** What the launcher strips beyond the first v. */
  lemma {:induction false} StrippedVs(s: string) returns (vs: string)
    ensures s == vs + StripAll(s) && forall c :: c in vs ==> IsV(c)
  {
    if s != "" && IsV(s[0]) {
      var rest := StrippedVs(s[1..]);
      vs := [s[0]] + rest;
      assert s == [s[0]] + s[1..];
    } else {
      vs := "";
    }
  }

  lemma Associate(a: string, b: string, c: string)
    ensures a + (b + c) == a + b + c
  {
  }

  lemma {:induction false} FirstTokenBehind(p: string, s: string)
    requires '.' !in p
    ensures FirstToken(p + s) == p + FirstToken(s)
  {
    if p == "" {
      assert p + s == s && p + FirstToken(s) == FirstToken(s);
    } else {
      var head, tail := [p[0]], p[1..];
      assert p == head + tail;
      FirstTokenBehind(tail, s);
      Associate(head, tail, s);
      Associate(head, tail, FirstToken(s));
      assert (head + (tail + s))[1..] == tail + s;
    }
  }

  /** Text without a dot in front changes the first token only. */
  lemma SplitBehind(p: string, s: string) returns (others: seq<string>)
    requires '.' !in p
    ensures Split(s) == [FirstToken(s)] + others && Split(p + s) == [p + FirstToken(s)] + others
  {
    var t := FirstToken(s);
    FirstTokenBehind(p, s);
    if |t| < |s| {
      others := Split(s[|t| + 1..]);
      SplitOnce(s, t);
      SplitOnce(p + s, p + t);
      DropPrefix(p, s, |t| + 1);
    } else {
      others := [];
    }
  }

  lemma VTokenIsZero(token: string)
    requires token != "" && IsV(token[0])
    ensures CppPart(token) == 0
  {
    assert SkipSpaces(token) == token && DigitPrefix(token) == "";
  }

  /** The tokens C++ reads, up to the one that getline drops, against those of Rust. */
  lemma TokensOf(version: string)
    ensures var cpp, rust := Split(StripOne(version)), Split(StripAll(version));
      && |cpp| == |rust| > 0 && cpp[1..] == rust[1..]
      && (StripAll(version) == StripOne(version) ==> cpp[0] == rust[0])
      && (StripAll(version) != StripOne(version) ==> CppPart(cpp[0]) == 0)
  {
    var s := StripOne(version);
    assert StripAll(version) == StripAll(s);
    var vs := StrippedVs(s);
    var others := SplitBehind(vs, StripAll(s));
    if vs == "" {
      assert vs + StripAll(s) == StripAll(s);
    } else {
      var first := vs + FirstToken(StripAll(s));
      assert IsV(first[0]);
      VTokenIsZero(first);
    }
  }

  lemma TokenAgrees(version: string, i: nat)
    requires i < |Split(StripOne(version))|
    ensures var cpp, rust := Split(StripOne(version)), Split(StripAll(version));
      |rust| == |cpp| && (CppPart(cpp[i]) == RustPart(rust[i]) <==> TokenReadAlike(version, rust[i], i))
  {
    var cpp, rust := Split(StripOne(version)), Split(StripAll(version));
    TokensOf(version);
    if i == 0 {
      TokensAgreeIff(rust[0]);
      RustZeroIff(rust[0]);
    } else {
      assert cpp[i] == cpp[1..][i - 1] && rust[i] == rust[1..][i - 1];
      TokensAgreeIff(rust[i]);
    }
  }

  /** The two programs read a version as the same numbers exactly if it is `ReadAlike`. */
  lemma ReadAlikeIff(version: string)
    ensures SameVersion(CppParts(version), RustParts(version)) <==> ReadAlike(version)
  {
    var cpp, rust := Split(StripOne(version)), Split(StripAll(version));
    assert CppPart("") == 0;
    GetlineLosesNothing(CppPart, StripOne(version));
    TokensOf(version);
    ValuesAgreeIff(CppPart, RustPart, cpp, rust);
    forall i | 0 <= i < |cpp| ensures CppPart(cpp[i]) == RustPart(rust[i]) <==> TokenReadAlike(version, rust[i], i) {
      TokenAgrees(version, i);
    }
  }

  /** The same verdict in both directions. */
  ghost predicate Agree(x: string, y: string) {
    && Newer(CppParts(x), CppParts(y)) == Newer(RustParts(x), RustParts(y))
    && Newer(CppParts(y), CppParts(x)) == Newer(RustParts(y), RustParts(x))
  }

  /** Both programs give the same verdict on every pair of such versions; by `WellFormedIsReadAlike` in
      particular on all well-formed ones, however long their digit runs are. */
  lemma ProgramsAgree(x: string, y: string)
    requires ReadAlike(x) && ReadAlike(y)
    ensures Agree(x, y)
  {
    ReadAlikeIff(x);
    ReadAlikeIff(y);
    PaddingIsIrrelevant(CppParts(x), RustParts(x), CppParts(y), RustParts(y));
    PaddingIsIrrelevant(CppParts(y), RustParts(y), CppParts(x), RustParts(x));
  }

  /** A version that both programs read as the given numbers. */
  lemma PrintOf(parts: seq<int>) returns (y: string)
    requires forall i :: 0 <= i < |parts| ==> IsInt32(parts[i])
    ensures ReadAlike(y) && SameVersion(CppParts(y), parts) && SameVersion(RustParts(y), parts)
  {
    var filled := if parts == [] then [0] else parts;
    y := PrintVersion(filled);
    PrintedVersionsReadBack("", filled);
    assert "" + y == y;
    ReadAlikeIff(y);
  }

  lemma ValuesAreInts(x: string)
    ensures forall i :: 0 <= i < |CppParts(x)| ==> IsInt32(CppParts(x)[i])
    ensures forall i :: 0 <= i < |RustParts(x)| ==> IsInt32(RustParts(x)[i])
  {
    var cpp, rust := GetlineTokens(StripOne(x)), Split(StripAll(x));
    forall i | 0 <= i < |cpp| ensures IsInt32(CppPart(cpp[i])) {
      PartsAreInts(cpp[i]);
    }
    forall i | 0 <= i < |rust| ensures IsInt32(RustPart(rust[i])) {
      PartsAreInts(rust[i]);
    }
  }

  /** A version that stands for the greater of two lists tells them apart. */
  lemma GreaterTellsApart(a: seq<int>, b: seq<int>, y: seq<int>)
    requires Newer(a, b) && SameVersion(y, a)
    ensures !Newer(y, a) && Newer(y, b)
  {
    Irreflexive(a);
    PaddingIsIrrelevant(y, a, a, a);
    PaddingIsIrrelevant(y, a, b, b);
  }

  lemma Discriminated(x: string) returns (y: string)
    requires !ReadAlike(x)
    ensures ReadAlike(y) && !Agree(x, y)
  {
    var c, r := CppParts(x), RustParts(x);
    ReadAlikeIff(x);
    ValuesAreInts(x);
    IncomparableMeansSame(c, r);
    if Newer(c, r) {
      y := PrintOf(c);
      PaddingIsIrrelevant(CppParts(y), RustParts(y), c, c);
      GreaterTellsApart(c, r, CppParts(y));
      GreaterTellsApart(c, r, RustParts(y));
    } else {
      y := PrintOf(r);
      GreaterTellsApart(r, c, CppParts(y));
      GreaterTellsApart(r, c, RustParts(y));
    }
  }

  /** The class cannot be made larger: a version gets the same verdicts from both programs, against every
      version they read alike, exactly if it is one of them. */
  lemma AgreesWithAllIff(x: string)
    ensures (forall y :: ReadAlike(y) ==> Agree(x, y)) <==> ReadAlike(x)
  {
    if ReadAlike(x) {
      forall y | ReadAlike(y) ensures Agree(x, y) {
        ProgramsAgree(x, y);
      }
    } else {
      var y := Discriminated(x);
    }
  }

  /** Of any number of v in front the launcher drops all and the server one. */
  lemma {:induction false} LeadingVsAreStripped(vs: string, body: string)
    requires (forall i :: 0 <= i < |vs| ==> vs[i] == 'v' || vs[i] == 'V') && (body == "" || body[0] !in {'v', 'V'})
    ensures StripAll(vs + body) == body
    ensures StripOne(vs + body) == (if vs == "" then "" else vs[1..]) + body
  {
    if vs == "" {
      assert vs + body == body;
    } else {
      assert (vs + body)[1..] == vs[1..] + body;
      LeadingVsAreStripped(vs[1..], body);
    }
  }

  // ----- Two ways to be read differently -----

  lemma OneTokenParts(t: string)
    requires t != "" && '.' !in t && !IsV(t[0])
    ensures CppParts(t) == [CppPart(t)] && RustParts(t) == [RustPart(t)]
  {
    OneToken(t);
  }

  lemma EmptyVersion()
    ensures CppParts("") == [] && RustParts("") == [0]
  {
    OneToken("");
    assert RustPart("") == 0;
  }

  lemma CppReadsPrefix(digits: string, suffix: string)
    requires digits != "" && AllDigits(digits) && Value(digits) <= INT_MAX
    requires suffix != "" && !IsDigit(suffix[0])
    ensures CppPart(digits + suffix) == Value(digits)
  {
    var t := digits + suffix;
    DigitPrefixStops(digits, suffix);
    assert t[0] == digits[0] && IsDigit(t[0]);
    assert SkipSpaces(t) == t && Unsigned(t) == t;
  }

  lemma RustRejectsSuffix(digits: string, suffix: string)
    requires digits != "" && AllDigits(digits) && suffix != "" && !IsDigit(suffix[0])
    ensures RustPart(digits + suffix) == 0
  {
    var t := digits + suffix;
    assert t[0] == digits[0] && IsDigit(t[0]);
    assert Unsigned(t) == t && t[|digits|] == suffix[0];
  }

  /** Text behind a positive number, as in 2rc, is dropped by one program and turns the component into zero
      in the other. Already against the empty version they disagree. */
  lemma SuffixesDisagree(digits: string, suffix: string)
    requires digits != "" && AllDigits(digits) && 0 < Value(digits) <= INT_MAX
    requires suffix != "" && !IsDigit(suffix[0]) && '.' !in suffix
    ensures Newer(CppParts(digits + suffix), CppParts(""))
    ensures !Newer(RustParts(digits + suffix), RustParts(""))
    ensures !ReadAlike(digits + suffix)
  {
    var t, v := digits + suffix, Value(digits);
    CppReadsPrefix(digits, suffix);
    RustRejectsSuffix(digits, suffix);
    assert t[0] == digits[0] && IsDigit(t[0]);
    OneTokenParts(t);
    EmptyVersion();
    assert Part([v], 0) > Part([], 0) && AgreeBelow([v], [], 0);
    assert Part([v], 0) != Part([0], 0);
    Irreflexive([0]);
    ReadAlikeIff(t);
  }

  lemma DigitsAreNotIgnored(digits: string)
    requires digits != "" && AllDigits(digits) && 0 < Value(digits) <= INT_MAX
    ensures StrictNumeral(digits) && !NumberIgnored(digits)
  {
    assert IsDigit(digits[0]);
    DigitPrefixOfDigits(digits);
    assert SkipSpaces(digits) == digits && Unsigned(digits) == digits;
  }

  /** From a second v on, one program leaves a v in the first token and reads zero. */
  lemma SecondVDisagrees(vs: string, digits: string)
    requires |vs| >= 2 && forall i :: 0 <= i < |vs| ==> vs[i] == 'v' || vs[i] == 'V'
    requires digits != "" && AllDigits(digits) && 0 < Value(digits) <= INT_MAX
    ensures !ReadAlike(vs + digits)
  {
    var x := vs + digits;
    assert IsDigit(digits[0]);
    LeadingVsAreStripped(vs, digits);
    assert StripOne(x) != StripAll(x) by {
      assert |StripOne(x)| > |digits|;
    }
    OneToken(digits);
    DigitsAreNotIgnored(digits);
    assert !TokenReadAlike(x, Split(StripAll(x))[0], 0);
  }

}
