/** The parts of Go's `strings` and `strconv` the resolver relies on. */
module Text {
  import opened Results

  newtype Byte = x: int | 0 <= x < 256

  /** strings.ReplaceAll for a non-empty pattern: left to right, not overlapping. */
  function ReplaceAll(s: string, pattern: string, with: string): string
    requires pattern != ""
    decreases |s|
  {
    if |s| < |pattern| then s
    else if s[..|pattern|] == pattern then with + ReplaceAll(s[|pattern|..], pattern, with)
    else [s[0]] + ReplaceAll(s[1..], pattern, with)
  }

  /** strings.Split for a one-character separator. Splitting "" gives [""]. */
  function Split(s: string, sep: char): (parts: seq<string>)
    ensures parts != []
  {
    if s == "" then [""]
    else
      var rest := Split(s[1..], sep);
      if s[0] == sep then [""] + rest else [[s[0]] + rest[0]] + rest[1..]
  }

  /** The parts once a character is put in front. */
  function Prefixed(c: char, parts: seq<string>, sep: char): seq<string>
    requires parts != []
  {
    if c == sep then [""] + parts else [[c] + parts[0]] + parts[1..]
  }

  lemma SplitPrefixed(c: char, s: string, sep: char)
    ensures Split([c] + s, sep) == Prefixed(c, Split(s, sep), sep)
  {
    assert ([c] + s)[1..] == s;
  }

  lemma PrefixedAppend(c: char, x: seq<string>, y: seq<string>, sep: char)
    requires x != []
    ensures Prefixed(c, x + y, sep) == Prefixed(c, x, sep) + y
  {
    assert (x + y)[0] == x[0] && (x + y)[1..] == x[1..] + y;
  }

  lemma {:induction false} SplitConcat(a: string, b: string, sep: char)
    ensures Split(a + [sep] + b, sep) == Split(a, sep) + Split(b, sep)
  {
    if a == "" {
      assert a + [sep] + b == [sep] + b;
      SplitPrefixed(sep, b, sep);
    } else {
      var c, rest := a[0], a[1..];
      assert a == [c] + rest && a + [sep] + b == [c] + (rest + [sep] + b);
      SplitConcat(rest, b, sep);
      SplitPrefixed(c, rest + [sep] + b, sep);
      SplitPrefixed(c, rest, sep);
      PrefixedAppend(c, Split(rest, sep), Split(b, sep), sep);
    }
  }

  lemma {:induction false} SplitWithoutSeparator(s: string, sep: char)
    requires sep !in s
    ensures Split(s, sep) == [s]
  {
    if s != "" {
      assert s[0] in s && forall c :: c in s[1..] ==> c in s;
      SplitWithoutSeparator(s[1..], sep);
      assert [s[0]] + s[1..] == s;
    }
  }

  // ---- strings.Cut and strings.TrimRight ---------------------------------------------

  /** The head strings.Cut returns: everything before the first separator. */
  function CutBefore(s: string, sep: string): Option<string>
    decreases |s|
  {
    if sep <= s then Some("")
    else if s == "" then None
    else match CutBefore(s[1..], sep)
         case Some(head) => Some([s[0]] + head)
         case None => None
  }

  ghost predicate Occurs(s: string, sep: string, i: nat) {
    i + |sep| <= |s| && s[i..i + |sep|] == sep
  }

  lemma OccursInRest(s: string, sep: string, i: nat)
    requires s != "" && i > 0
    ensures Occurs(s, sep, i) <==> Occurs(s[1..], sep, i - 1)
  {
    if i + |sep| <= |s| {
      assert s[i..i + |sep|] == s[1..][i - 1..i - 1 + |sep|];
    }
  }

  /** The cut is at the first occurrence, or there is none. */
  lemma {:induction false} CutAtFirst(s: string, sep: string)
    ensures var head := CutBefore(s, sep);
      if head.Some? then
        && Occurs(s, sep, |head.value|) && head.value == s[..|head.value|]
        && forall i :: 0 <= i < |head.value| ==> !Occurs(s, sep, i)
      else forall i: nat :: !Occurs(s, sep, i)
    decreases |s|
  {
    if !(sep <= s) && s != "" {
      var rest := s[1..];
      CutAtFirst(rest, sep);
      forall i: nat ensures i > 0 ==> (Occurs(s, sep, i) <==> Occurs(rest, sep, i - 1)) {
        if i > 0 { OccursInRest(s, sep, i); }
      }
      assert !Occurs(s, sep, 0);
    }
  }

  /** What stands before a separator, when the separator's first character does not occur in it. */
  lemma {:induction false} CutAfter(head: string, sep: string, s: string)
    requires sep != "" && sep[0] !in head && head + sep <= s
    ensures CutBefore(s, sep) == Some(head)
    decreases |head|
  {
    if head == "" {
      assert head + sep == sep;
    } else {
      var rest := head[1..];
      assert head == [head[0]] + rest;
      assert head[0] in head && head[0] == s[0];
      assert (head + sep)[1..] == rest + sep;
      CutAfter(rest, sep, s[1..]);
    }
  }

  /** strings.TrimRight for one character. */
  function TrimRight(s: string, c: char): (r: string)
    ensures r <= s && (r != "" ==> r[|r| - 1] != c)
    ensures forall i :: |r| <= i < |s| ==> s[i] == c
  {
    if s != "" && s[|s| - 1] == c then TrimRight(s[..|s| - 1], c) else s
  }

  // ---- strconv.Itoa and strconv.Atoi -------------------------------------------------

  /** The largest value of Go's int on a 64-bit platform. */
  const MAX_INT: int := 0x7FFF_FFFF_FFFF_FFFF

  /** A Go slice: its length is an int. */
  type Slice<T> = s: seq<T> | |s| <= MAX_INT witness []

  predicate IsDigit(c: char) { '0' <= c <= '9' }

  predicate AllDigits(s: string) { forall k :: 0 <= k < |s| ==> IsDigit(s[k]) }

  function DigitChar(d: nat): (c: char)
    requires d < 10
    ensures IsDigit(c) && DigitValue(c) == d
  {
    '0' + d as char
  }

  function DigitValue(c: char): nat
    requires IsDigit(c)
  {
    c as int - '0' as int
  }

  function Value(digits: string): nat
    requires AllDigits(digits)
  {
    if digits == "" then 0
    else Value(digits[..|digits| - 1]) * 10 + DigitValue(digits[|digits| - 1])
  }

  function Itoa(n: nat): string {
    if n < 10 then [DigitChar(n)] else Itoa(n / 10) + [DigitChar(n % 10)]
  }

  /** An optional sign, then at least one decimal digit; a value outside the 64-bit int is an error. */
  function Atoi(s: string): Option<int> {
    var signed := s != "" && (s[0] == '+' || s[0] == '-');
    var digits := if signed then s[1..] else s;
    if digits == "" || !AllDigits(digits) then None
    else
      var magnitude: int := Value(digits);
      var v := if s[0] == '-' then -magnitude else magnitude;
      if -MAX_INT - 1 <= v <= MAX_INT then Some(v) else None
  }

  /** Decimal digits with no redundant leading zero. */
  predicate Canonical(s: string) {
    s != "" && AllDigits(s) && (|s| > 1 ==> s[0] != '0')
  }

  lemma {:induction false} ItoaIsCanonical(n: nat)
    ensures Canonical(Itoa(n)) && Value(Itoa(n)) == n
    ensures n > 0 ==> Itoa(n)[0] != '0'
  {
    if n < 10 {
      assert Itoa(n)[..0] == "";
    } else {
      ItoaIsCanonical(n / 10);
      assert Itoa(n)[..|Itoa(n)| - 1] == Itoa(n / 10);
    }
  }

  lemma LastDigit(n: nat, d: nat)
    requires d < 10
    ensures (n * 10 + d) / 10 == n && (n * 10 + d) % 10 == d
  {
  }

  lemma {:induction false} CanonicalIsItoa(s: string)
    requires Canonical(s)
    ensures s == Itoa(Value(s))
    ensures s[0] != '0' ==> Value(s) > 0
  {
    var init, last := s[..|s| - 1], s[|s| - 1];
    assert s == init + [last];
    if init == "" {
      assert Value(init) == 0;
    } else {
      assert init[0] == s[0];
      CanonicalIsItoa(init);
      LastDigit(Value(init), DigitValue(last));
      assert DigitChar(DigitValue(last)) == last;
    }
  }

  lemma AtoiItoa(n: nat)
    requires n <= MAX_INT
    ensures Atoi(Itoa(n)) == Some(n)
  {
    ItoaIsCanonical(n);
    assert IsDigit(Itoa(n)[0]);
  }

  lemma {:induction false} LeadingZero(digits: string)
    requires AllDigits(digits)
    ensures AllDigits("0" + digits) && Value("0" + digits) == Value(digits)
  {
    var all := "0" + digits;
    if digits == "" {
      assert all[..0] == "" && DigitValue('0') == 0;
    } else {
      var init := digits[..|digits| - 1];
      LeadingZero(init);
      assert all[..|all| - 1] == "0" + init;
    }
  }

  lemma AtoiUnsigned(digits: string)
    requires digits != "" && AllDigits(digits) && Value(digits) <= MAX_INT
    ensures Atoi(digits) == Some(Value(digits))
  {
    assert IsDigit(digits[0]);
  }

  lemma AtoiMinus(digits: string)
    requires digits != "" && AllDigits(digits) && Value(digits) <= MAX_INT
    ensures Atoi("-" + digits) == Some(0 - Value(digits))
  {
    assert ("-" + digits)[1..] == digits;
  }

  lemma AtoiPlus(digits: string)
    requires digits != "" && AllDigits(digits) && Value(digits) <= MAX_INT
    ensures Atoi("+" + digits) == Some(Value(digits))
  {
    assert ("+" + digits)[1..] == digits;
  }

  /** A sign is read as one, and leading zeros do not change a value. */
  lemma AtoiSigned(digits: string)
    requires digits != "" && AllDigits(digits) && Value(digits) <= MAX_INT
    ensures Atoi(digits) == Atoi("+" + digits) == Atoi("0" + digits) == Some(Value(digits))
    ensures Atoi("-" + digits) == Some(0 - Value(digits))
  {
    LeadingZero(digits);
    AtoiUnsigned(digits);
    AtoiUnsigned("0" + digits);
    AtoiPlus(digits);
    AtoiMinus(digits);
  }

  lemma ItoaInjective(m: nat, n: nat)
    requires Itoa(m) == Itoa(n)
    ensures m == n
  {
    ItoaIsCanonical(m);
    ItoaIsCanonical(n);
  }
}
