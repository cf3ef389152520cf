/** The facade client: participant paths, the signed filter, localized fetches (internal/contract/client.go). */
module FacadeClient {
  import opened Results
  import opened Collections
  import opened Text
  import opened Contracts

  // ---- base64, URL-safe alphabet, padded (RFC 4648, sections 4 and 5) ----------------------------

  /** The alphabet of section 5: '-' and '_' take the place of '+' and '/'. */
  function Digit(i: int): char
    requires 0 <= i < 64
  {
    if i < 26 then 'A' + i as char
    else if i < 52 then 'a' + (i - 26) as char
    else if i < 62 then '0' + (i - 52) as char
    else if i == 62 then '-' else '_'
  }

  const UPPER: string := "ABCDEFGHIJKLMNOPQRSTUVWXYZ"
  const LOWER: string := "abcdefghijklmnopqrstuvwxyz"
  const DIGITS: string := "0123456789"

  /** Table 2 of section 5, in order. */
  lemma AlphabetExactly(i: int)
    requires 0 <= i < 64
    ensures Digit(i) == (if i < 26 then UPPER[i]
                         else if i < 52 then LOWER[i - 26]
                         else if i < 62 then DIGITS[i - 52]
                         else "-_"[i - 62])
  {
  }

  /** The position of a character in the alphabet. */
  ghost function Sextet(c: char): (r: Option<int>)
    ensures r.Some? ==> 0 <= r.value < 64 && Digit(r.value) == c
    ensures r.None? ==> forall i :: 0 <= i < 64 ==> Digit(i) != c
  {
    if i :| 0 <= i < 64 && Digit(i) == c then Some(i) else None
  }

  lemma DigitInjective(i: int, j: int)
    requires 0 <= i < 64 && 0 <= j < 64 && Digit(i) == Digit(j)
    ensures i == j
  {
  }

  lemma SextetOfDigit(i: int)
    requires 0 <= i < 64
    ensures Sextet(Digit(i)) == Some(i)
  {
    DigitInjective(i, Sextet(Digit(i)).value);
  }

  lemma PaddingIsNoDigit()
    ensures Sextet('=').None?
  {
  }

  /** One to three bytes make four characters; missing bytes count as zero and show as padding. */
  function EncodeGroup(g: seq<Byte>): (t: string)
    requires 1 <= |g| <= 3
    ensures |t| == 4
  {
    var x := g[0] as int;
    var y := if |g| > 1 then g[1] as int else 0;
    var z := if |g| > 2 then g[2] as int else 0;
    [Digit(x / 4), Digit(x % 4 * 16 + y / 16),
     if |g| > 1 then Digit(y % 16 * 4 + z / 64) else '=',
     if |g| > 2 then Digit(z % 64) else '=']
  }

  const PADDING: string := "=="

  function Encode(b: seq<Byte>): string {
    if b == [] then ""
    else if |b| < 3 then EncodeGroup(b)
    else EncodeGroup(b[..3]) + Encode(b[3..])
  }

  /** Padding is required; the bits a padded group does not use are ignored. */
  ghost function DecodeGroup(t: string): (g: Option<seq<Byte>>)
    requires |t| == 4
    ensures g.Some? ==> 1 <= |g.value| <= 3
  {
    var p, q, r, u := Sextet(t[0]), Sextet(t[1]), Sextet(t[2]), Sextet(t[3]);
    if p.None? || q.None? then None
    else
      var x := (p.value * 4 + q.value / 16) as Byte;
      if r.None? then if t[2] == '=' && t[3] == '=' then Some([x]) else None
      else
        var y := (q.value % 16 * 16 + r.value / 4) as Byte;
        if u.None? then if t[3] == '=' then Some([x, y]) else None
        else Some([x, y, (r.value % 4 * 64 + u.value) as Byte])
  }

  /**
   * The facade's side. Only the last group may be short, and it decodes with or without its padding;
   * a single character left over is not enough for a byte.
   */
  ghost function Decode(s: string): Option<seq<Byte>> {
    if s == "" then Some([])
    else if |s| < 4 then
      if |s| == 1 || '=' in s then None else DecodeGroup(s + PADDING[|s| - 2..])
    else if DecodeGroup(s[..4]).None? then None
    else
      var g := DecodeGroup(s[..4]).value;
      if |g| < 3 then if |s| == 4 then Some(g) else None
      else match Decode(s[4..])
           case Some(rest) => Some(g + rest)
           case None => None
  }

  /** Three bytes cut into four sextets, put together again. */
  lemma BytesOfSextets(x: int, y: int, z: int)
    requires 0 <= x < 256 && 0 <= y < 256 && 0 <= z < 256
    ensures var p, q, r, s := x / 4, x % 4 * 16 + y / 16, y % 16 * 4 + z / 64, z % 64;
      && 0 <= p < 64 && 0 <= q < 64 && 0 <= r < 64 && 0 <= s < 64
      && p * 4 + q / 16 == x && q % 16 * 16 + r / 4 == y && r % 4 * 64 + s == z
  {
  }

  /** Four sextets joined into three bytes, cut again. */
  lemma SextetsOfBytes(p: int, q: int, r: int, s: int)
    requires 0 <= p < 64 && 0 <= q < 64 && 0 <= r < 64 && 0 <= s < 64
    ensures var x, y, z := p * 4 + q / 16, q % 16 * 16 + r / 4, r % 4 * 64 + s;
      && 0 <= x < 256 && 0 <= y < 256 && 0 <= z < 256
      && x / 4 == p && x % 4 * 16 + y / 16 == q && y % 16 * 4 + z / 64 == r && z % 64 == s
  {
  }

  // A group of one, two or three bytes, decoded from its digits and encoded into them.

  lemma DecodeOne(p: int, q: int)
    requires 0 <= p < 64 && 0 <= q < 64
    ensures 0 <= p * 4 + q / 16 < 256
    ensures DecodeGroup([Digit(p), Digit(q), '=', '=']) == Some([(p * 4 + q / 16) as Byte])
  {
    PaddingIsNoDigit();
    SextetOfDigit(p);
    SextetOfDigit(q);
  }

  lemma DecodeTwo(p: int, q: int, r: int)
    requires 0 <= p < 64 && 0 <= q < 64 && 0 <= r < 64
    ensures 0 <= p * 4 + q / 16 < 256 && 0 <= q % 16 * 16 + r / 4 < 256
    ensures DecodeGroup([Digit(p), Digit(q), Digit(r), '='])
         == Some([(p * 4 + q / 16) as Byte, (q % 16 * 16 + r / 4) as Byte])
  {
    PaddingIsNoDigit();
    SextetOfDigit(p);
    SextetOfDigit(q);
    SextetOfDigit(r);
  }

  lemma DecodeThree(p: int, q: int, r: int, s: int)
    requires 0 <= p < 64 && 0 <= q < 64 && 0 <= r < 64 && 0 <= s < 64
    ensures 0 <= p * 4 + q / 16 < 256 && 0 <= q % 16 * 16 + r / 4 < 256 && 0 <= r % 4 * 64 + s < 256
    ensures DecodeGroup([Digit(p), Digit(q), Digit(r), Digit(s)])
         == Some([(p * 4 + q / 16) as Byte, (q % 16 * 16 + r / 4) as Byte, (r % 4 * 64 + s) as Byte])
  {
    SextetOfDigit(p);
    SextetOfDigit(q);
    SextetOfDigit(r);
    SextetOfDigit(s);
  }

  lemma EncodeOne(x: Byte)
    ensures EncodeGroup([x]) == [Digit(x as int / 4), Digit(x as int % 4 * 16), '=', '=']
  {
  }

  lemma EncodeTwo(x: Byte, y: Byte)
    ensures EncodeGroup([x, y])
         == [Digit(x as int / 4), Digit(x as int % 4 * 16 + y as int / 16), Digit(y as int % 16 * 4), '=']
  {
  }

  lemma EncodeThree(x: Byte, y: Byte, z: Byte)
    ensures EncodeGroup([x, y, z])
         == [Digit(x as int / 4), Digit(x as int % 4 * 16 + y as int / 16),
             Digit(y as int % 16 * 4 + z as int / 64), Digit(z as int % 64)]
  {
  }

  lemma OneRoundTrip(x: Byte)
    ensures DecodeGroup(EncodeGroup([x])) == Some([x])
  {
    BytesOfSextets(x as int, 0, 0);
    EncodeOne(x);
    DecodeOne(x as int / 4, x as int % 4 * 16);
  }

  lemma TwoRoundTrip(x: Byte, y: Byte)
    ensures DecodeGroup(EncodeGroup([x, y])) == Some([x, y])
  {
    BytesOfSextets(x as int, y as int, 0);
    EncodeTwo(x, y);
    DecodeTwo(x as int / 4, x as int % 4 * 16 + y as int / 16, y as int % 16 * 4);
  }

  lemma ThreeRoundTrip(x: Byte, y: Byte, z: Byte)
    ensures DecodeGroup(EncodeGroup([x, y, z])) == Some([x, y, z])
  {
    BytesOfSextets(x as int, y as int, z as int);
    EncodeThree(x, y, z);
    DecodeThree(x as int / 4, x as int % 4 * 16 + y as int / 16, y as int % 16 * 4 + z as int / 64, z as int % 64);
  }

  lemma GroupRoundTrip(g: seq<Byte>)
    requires 1 <= |g| <= 3
    ensures DecodeGroup(EncodeGroup(g)) == Some(g)
  {
    if |g| == 1 {
      assert g == [g[0]];
      OneRoundTrip(g[0]);
    } else if |g| == 2 {
      assert g == [g[0], g[1]];
      TwoRoundTrip(g[0], g[1]);
    } else {
      assert g == [g[0], g[1], g[2]];
      ThreeRoundTrip(g[0], g[1], g[2]);
    }
  }

  lemma GroupFirst(g: seq<Byte>, s: string, rest: seq<Byte>)
    requires |g| == 3 && Decode(s) == Some(rest)
    ensures Decode(EncodeGroup(g) + s) == Some(g + rest)
  {
    GroupRoundTrip(g);
    var all := EncodeGroup(g) + s;
    assert all[..4] == EncodeGroup(g) && all[4..] == s;
  }

  /** Every byte sequence comes back. */
  lemma {:induction false} DecodeEncode(b: seq<Byte>)
    ensures Decode(Encode(b)) == Some(b)
  {
    if b != [] && |b| < 3 {
      GroupRoundTrip(b);
      assert Encode(b)[..4] == EncodeGroup(b);
    } else if b != [] {
      DecodeEncode(b[3..]);
      GroupFirst(b[..3], Encode(b[3..]), b[3..]);
      assert b == b[..3] + b[3..];
    }
  }

  /** The bits a padded group does not use are zero. */
  ghost predicate TidyGroup(t: string)
    requires |t| == 4
  {
    && (t[2] == '=' && Sextet(t[1]).Some? ==> Sextet(t[1]).value % 16 == 0)
    && (t[3] == '=' && Sextet(t[2]).Some? ==> Sextet(t[2]).value % 4 == 0)
  }

  ghost predicate Tidy(s: string) {
    |s| >= 4 ==> TidyGroup(s[|s| - 4..])
  }

  lemma FullReencode(t: string)
    requires |t| == 4 && DecodeGroup(t).Some? && Sextet(t[3]).Some?
    ensures |DecodeGroup(t).value| == 3 && EncodeGroup(DecodeGroup(t).value) == t && TidyGroup(t)
  {
    PaddingIsNoDigit();
    var p, q, r, u := Sextet(t[0]).value, Sextet(t[1]).value, Sextet(t[2]).value, Sextet(t[3]).value;
    assert t == [Digit(p), Digit(q), Digit(r), Digit(u)];
    DecodeThree(p, q, r, u);
    SextetsOfBytes(p, q, r, u);
    EncodeThree((p * 4 + q / 16) as Byte, (q % 16 * 16 + r / 4) as Byte, (r % 4 * 64 + u) as Byte);
  }

  /** Two bytes joined from three sextets, cut again. */
  lemma PairOfBytes(p: int, q: int, r: int)
    requires 0 <= p < 64 && 0 <= q < 64 && 0 <= r < 64
    ensures var x, y := p * 4 + q / 16, q % 16 * 16 + r / 4;
      x / 4 == p && x % 4 * 16 + y / 16 == q && y % 16 * 4 == r / 4 * 4
  {
  }

  /** Encoded again, the last sextet of a short group loses the bits it does not use. */
  lemma EncodedPair(p: int, q: int, r: int)
    requires 0 <= p < 64 && 0 <= q < 64 && 0 <= r < 64
    requires 0 <= p * 4 + q / 16 < 256 && 0 <= q % 16 * 16 + r / 4 < 256
    ensures EncodeGroup([(p * 4 + q / 16) as Byte, (q % 16 * 16 + r / 4) as Byte])
         == [Digit(p), Digit(q), Digit(r / 4 * 4), '=']
  {
    PairOfBytes(p, q, r);
    EncodeTwo((p * 4 + q / 16) as Byte, (q % 16 * 16 + r / 4) as Byte);
  }

  lemma EncodedSingle(p: int, q: int)
    requires 0 <= p < 64 && 0 <= q < 64 && 0 <= p * 4 + q / 16 < 256
    ensures EncodeGroup([(p * 4 + q / 16) as Byte]) == [Digit(p), Digit(q / 16 * 16), '=', '=']
  {
    SextetsOfBytes(p, q / 16 * 16, 0, 0);
    EncodeOne((p * 4 + q / 16) as Byte);
  }

  lemma SameDigit(r: int, n: int)
    requires 0 <= r < 64 && n in {4, 16}
    ensures 0 <= r / n * n < 64
    ensures Digit(r / n * n) == Digit(r) <==> r % n == 0
  {
    if Digit(r / n * n) == Digit(r) { DigitInjective(r / n * n, r); }
  }

  lemma ThreeReencode(t: string)
    requires |t| == 4 && DecodeGroup(t).Some? && Sextet(t[3]).None? && Sextet(t[2]).Some?
    ensures |DecodeGroup(t).value| == 2
    ensures EncodeGroup(DecodeGroup(t).value) == t <==> TidyGroup(t)
  {
    PaddingIsNoDigit();
    var p, q, r := Sextet(t[0]).value, Sextet(t[1]).value, Sextet(t[2]).value;
    assert t == [Digit(p), Digit(q), Digit(r), '='];
    DecodeTwo(p, q, r);
    EncodedPair(p, q, r);
    SameDigit(r, 4);
  }

  lemma TwoReencode(t: string)
    requires |t| == 4 && DecodeGroup(t).Some? && Sextet(t[2]).None?
    ensures |DecodeGroup(t).value| == 1
    ensures EncodeGroup(DecodeGroup(t).value) == t <==> TidyGroup(t)
  {
    PaddingIsNoDigit();
    var p, q := Sextet(t[0]).value, Sextet(t[1]).value;
    assert t == [Digit(p), Digit(q), '=', '='];
    DecodeOne(p, q);
    EncodedSingle(p, q);
    SameDigit(q, 16);
  }

  lemma GroupReencode(t: string)
    requires |t| == 4 && DecodeGroup(t).Some?
    ensures EncodeGroup(DecodeGroup(t).value) == t <==> TidyGroup(t)
    ensures |DecodeGroup(t).value| == 3 ==> EncodeGroup(DecodeGroup(t).value) == t
  {
    if Sextet(t[2]).None? {
      TwoReencode(t);
    } else if Sextet(t[3]).None? {
      ThreeReencode(t);
    } else {
      FullReencode(t);
    }
  }

  lemma FourMore(n: nat)
    requires n % 4 == 0
    ensures (n + 4) % 4 == 0
    ensures n > 0 ==> n >= 4
  {
  }

  lemma LastGroup(s: string)
    requires |s| >= 8
    ensures Tidy(s) <==> Tidy(s[4..])
  {
    assert s[4..][|s| - 8..] == s[|s| - 4..];
  }

  lemma OneGroup(s: string)
    requires |s| == 4 && DecodeGroup(s).Some?
    ensures Decode(s) == DecodeGroup(s)
    ensures Encode(DecodeGroup(s).value) == s <==> Tidy(s)
  {
    var g := DecodeGroup(s).value;
    assert s[..4] == s && s[|s| - 4..] == s && s[4..] == "";
    assert g + [] == g;
    assert |g| == 3 ==> g[..3] == g && g[3..] == [];
    GroupReencode(s);
  }

  lemma ManyGroups(s: string)
    requires |s| > 4 && Decode(s).Some?
    ensures DecodeGroup(s[..4]).Some? && |DecodeGroup(s[..4]).value| == 3 && Decode(s[4..]).Some?
    ensures Decode(s).value == DecodeGroup(s[..4]).value + Decode(s[4..]).value
  {
  }

  lemma {:induction false} WholeReencode(s: string)
    requires Decode(s).Some? && |s| % 4 == 0
    ensures Encode(Decode(s).value) == s <==> Tidy(s)
  {
    if |s| == 4 {
      assert s[..4] == s;
      OneGroup(s);
    } else if s != "" {
      FourFewer(|s|);
      ReencodeFirst(s);
      WholeReencode(s[4..]);
      LastGroup(s);
    }
  }

  lemma FourFewer(n: nat)
    requires n % 4 == 0 && n > 0 && n != 4
    ensures n >= 8 && (n - 4) % 4 == 0
  {
  }

  lemma {:induction false} EncodedLength(b: seq<Byte>)
    ensures |Encode(b)| % 4 == 0
  {
    if |b| >= 3 {
      EncodedLength(b[3..]);
      FourMore(|Encode(b[3..])|);
    }
  }

  /**
   * The facade's own check, re-encoding what it decoded, accepts a decodable string exactly when it
   * is padded to whole groups and its unused bits are zero.
   */
  lemma ReencodeExactly(s: string)
    requires Decode(s).Some?
    ensures Encode(Decode(s).value) == s <==> |s| % 4 == 0 && Tidy(s)
  {
    EncodedLength(Decode(s).value);
    if |s| % 4 == 0 {
      WholeReencode(s);
    }
  }

  /** The unpadded form of the same encoding. */
  function EncodeRaw(b: seq<Byte>): string {
    if b == [] then ""
    else if |b| < 3 then EncodeGroup(b)[..|b| + 1]
    else EncodeGroup(b[..3]) + EncodeRaw(b[3..])
  }

  lemma ShortGroup(g: seq<Byte>)
    requires 1 <= |g| < 3
    ensures '=' !in EncodeGroup(g)[..|g| + 1]
    ensures EncodeGroup(g) == EncodeGroup(g)[..|g| + 1] + PADDING[|g| - 1..]
    ensures Decode(EncodeGroup(g)[..|g| + 1]) == Some(g)
  {
    PaddingIsNoDigit();
    GroupRoundTrip(g);
  }

  lemma {:induction false} RawDecodes(b: seq<Byte>)
    ensures Decode(EncodeRaw(b)) == Some(b)
  {
    if b == [] {
    } else if |b| < 3 {
      ShortGroup(b);
    } else {
      RawDecodes(b[3..]);
      GroupFirst(b[..3], EncodeRaw(b[3..]), b[3..]);
      assert b == b[..3] + b[3..];
    }
  }

  lemma OneMoreGroup(n: nat, k: nat)
    requires n % 4 == 0 <==> k % 3 == 0
    ensures (n + 4) % 4 == 0 <==> (k + 3) % 3 == 0
  {
  }

  lemma {:induction false} RawLength(b: seq<Byte>)
    ensures |EncodeRaw(b)| % 4 == 0 <==> |b| % 3 == 0
  {
    if |b| >= 3 {
      RawLength(b[3..]);
      OneMoreGroup(|EncodeRaw(b[3..])|, |b[3..]|);
    }
  }

  lemma {:induction false} RawIsPrefix(b: seq<Byte>)
    ensures EncodeRaw(b) <= Encode(b)
  {
    if |b| >= 3 {
      RawIsPrefix(b[3..]);
      var g := EncodeGroup(b[..3]);
      assert Encode(b) == g + Encode(b[3..]) && EncodeRaw(b) == g + EncodeRaw(b[3..]);
    }
  }

  lemma {:induction false} RawOfWhole(b: seq<Byte>)
    requires |b| % 3 == 0
    ensures EncodeRaw(b) == Encode(b)
  {
    if |b| >= 3 {
      RawOfWhole(b[3..]);
    }
  }

  /**
   * An unpadded value decodes to the same bytes, and the re-encoding check then refuses it unless
   * there was nothing to pad.
   */
  lemma UnpaddedIsRefused(b: seq<Byte>)
    ensures EncodeRaw(b) <= Encode(b)
    ensures Decode(EncodeRaw(b)) == Some(b)
    ensures Encode(Decode(EncodeRaw(b)).value) == EncodeRaw(b) <==> |b| % 3 == 0
  {
    RawDecodes(b);
    RawIsPrefix(b);
    RawLength(b);
    EncodedLength(b);
    if |b| % 3 == 0 {
      RawOfWhole(b);
    }
  }

  lemma ReencodeFirst(s: string)
    requires |s| >= 8 && Decode(s).Some?
    ensures Decode(s[4..]).Some?
    ensures Encode(Decode(s).value) == s <==> Encode(Decode(s[4..]).value) == s[4..]
  {
    ManyGroups(s);
    GroupReencode(s[..4]);
    GroupsReencode(s[..4], s[4..], DecodeGroup(s[..4]).value, Decode(s[4..]).value);
    assert s == s[..4] + s[4..];
  }

  lemma GroupsReencode(t: string, rest: string, g: seq<Byte>, b: seq<Byte>)
    requires |t| == 4 && |g| == 3 && EncodeGroup(g) == t
    ensures Encode(g + b) == t + rest <==> Encode(b) == rest
  {
    assert (g + b)[..3] == g && (g + b)[3..] == b;
    assert Encode(g + b) == t + Encode(b);
    assert (t + Encode(b))[4..] == Encode(b) && (t + rest)[4..] == rest;
  }

  /** Letters, digits, '-', '_' and '=': nothing a proxy would escape or normalize. */
  ghost predicate PathSafe(c: char) { Sextet(c).Some? || c == '=' }

  lemma {:induction false} EncodedIsPathSafe(b: seq<Byte>)
    ensures forall k :: 0 <= k < |Encode(b)| ==> PathSafe(Encode(b)[k])
    ensures '/' !in Encode(b) && '+' !in Encode(b) && '%' !in Encode(b)
  {
    if |b| >= 3 {
      EncodedIsPathSafe(b[3..]);
    }
  }

  function VerifyPath(provider: seq<Byte>, consumer: seq<Byte>): string {
    "/verify/" + (Encode(provider) + "/" + Encode(consumer))
  }

  lemma SegmentsOf(p: seq<Byte>, c: seq<Byte>)
    ensures Split(Encode(p) + "/" + Encode(c), '/') == [Encode(p), Encode(c)]
  {
    EncodedIsPathSafe(p);
    EncodedIsPathSafe(c);
    SplitConcat(Encode(p), Encode(c), '/');
    SplitWithoutSeparator(Encode(p), '/');
    SplitWithoutSeparator(Encode(c), '/');
  }

  /** The path determines the pair. */
  lemma VerifyPathInjective(p: seq<Byte>, c: seq<Byte>, p': seq<Byte>, c': seq<Byte>)
    requires VerifyPath(p, c) == VerifyPath(p', c')
    ensures p == p' && c == c'
  {
    var tail, tail' := Encode(p) + "/" + Encode(c), Encode(p') + "/" + Encode(c');
    assert tail == VerifyPath(p, c)[|"/verify/"|..] == tail';
    SegmentsOf(p, c);
    SegmentsOf(p', c');
    assert Encode(p) == Split(tail, '/')[0] == Encode(p');
    assert Encode(c) == Split(tail, '/')[1] == Encode(c');
    DecodeEncode(p);
    DecodeEncode(c);
    DecodeEncode(p');
    DecodeEncode(c');
  }

  /** Its segments are the provider's encoding and then the consumer's. */
  lemma VerifyPathNames(provider: seq<Byte>, consumer: seq<Byte>)
    ensures var segments := Split(VerifyPath(provider, consumer), '/');
      && |segments| == 4 && segments[0] == "" && segments[1] == "verify"
      && Decode(segments[2]) == Some(provider) && Decode(segments[3]) == Some(consumer)
  {
    var tail := Encode(provider) + "/" + Encode(consumer);
    SegmentsOf(provider, consumer);
    SplitConcat("", "verify/" + tail, '/');
    SplitConcat("verify", tail, '/');
    SplitWithoutSeparator("verify", '/');
    assert "" + ['/'] + ("verify/" + tail) == VerifyPath(provider, consumer);
    assert "verify" + ['/'] + tail == "verify/" + tail;
    DecodeEncode(provider);
    DecodeEncode(consumer);
  }

  // ---- what counts as signed ----------------------------------------------------------------------

  /** Unicode simple case folding onto lower-case ASCII letters, as strings.EqualFold applies it. */
  function Fold(c: char): char {
    if 'A' <= c <= 'Z' then c + ('a' - 'A')
    else if c == '\U{017F}' then 's'
    else if c == '\U{212A}' then 'k'
    else c
  }

  /** strings.EqualFold against a lower-case ASCII word. */
  predicate EqualFold(s: string, word: string) {
    |s| == |word| && forall i :: 0 <= i < |s| ==> Fold(s[i]) == word[i]
  }

  predicate IsSigned(c: Contract) { EqualFold(c.status, "signed") }

  function Signed(contracts: seq<Contract>): seq<Contract> {
    if contracts == [] then []
    else Signed(Init(contracts)) + if IsSigned(Last(contracts)) then [Last(contracts)] else []
  }

  lemma {:induction false} SignedMembers(contracts: seq<Contract>, c: Contract)
    ensures c in Signed(contracts) <==> c in contracts && IsSigned(c)
  {
    if contracts != [] {
      SignedMembers(Init(contracts), c);
      assert contracts == Init(contracts) + [Last(contracts)];
    }
  }

  lemma {:induction false} SignedAppend(a: seq<Contract>, b: seq<Contract>)
    ensures Signed(a + b) == Signed(a) + Signed(b)
  {
    if b == [] {
      assert a + b == a;
    } else {
      SignedAppend(a, Init(b));
      assert Init(a + b) == a + Init(b) && Last(a + b) == Last(b);
    }
  }

  /** The letters of the word, each in either case; and the long s, which folds onto s. */
  predicate SpellsSigned(status: string) {
    && |status| == 6
    && status[0] in {'s', 'S', '\U{017F}'} && status[1] in {'i', 'I'} && status[2] in {'g', 'G'}
    && status[3] in {'n', 'N'} && status[4] in {'e', 'E'} && status[5] in {'d', 'D'}
  }

  lemma FoldsOnto(c: char, lower: char)
    requires lower in {'s', 'i', 'g', 'n', 'e', 'd'}
    ensures Fold(c) == lower <==> c == lower || c == lower - ('a' - 'A') || (lower == 's' && c == '\U{017F}')
  {
  }

  lemma SignedIsSpelled(c: Contract)
    ensures IsSigned(c) <==> SpellsSigned(c.status)
  {
    var s := c.status;
    if |s| == 6 {
      FoldsOnto(s[0], 's');
      FoldsOnto(s[1], 'i');
      FoldsOnto(s[2], 'g');
      FoldsOnto(s[3], 'n');
      FoldsOnto(s[4], 'e');
      FoldsOnto(s[5], 'd');
      assert IsSigned(c) <==>
        Fold(s[0]) == 's' && Fold(s[1]) == 'i' && Fold(s[2]) == 'g'
        && Fold(s[3]) == 'n' && Fold(s[4]) == 'e' && Fold(s[5]) == 'd';
    }
  }

  /** What is kept is told from the letters of the status alone; the rest is dropped. */
  lemma SignedExactly(contracts: seq<Contract>, c: Contract)
    ensures c in Signed(contracts) <==> c in contracts && SpellsSigned(c.status)
    ensures Signed([c]) == if SpellsSigned(c.status) then [c] else []
    ensures c.status in {"", "revoked", "terminated", "pending", "unsigned"} ==> c !in Signed(contracts)
  {
    SignedMembers(contracts, c);
    SignedIsSpelled(c);
    assert Init([c]) == [];
  }

  // ---- the HTTP side, as an oracle -------------------------------------------------------------------

  datatype VerifyResponse = VerifyResponse(verified: bool, contracts: seq<Contract>)

  datatype Url = Url(path: string, query: string)

  /** What the n-th fetch of a URL returns, decoded; and url.Parse. */
  datatype Web = Web(
    verify: (nat, string) -> Result<VerifyResponse, string>,
    offering: (nat, string) -> Result<seq<string>, string>,
    resource: (nat, string) -> Result<DataResource, string>,
    parse: string -> Result<Url, string>)

  /** Rebuilt on the client's own base, or refused: never fetched as it came. */
  function Localize(web: Web, baseURL: string, raw: string): Result<string, string> {
    match web.parse(raw)
    case Err(e) => Err("contract client: not a usable url: " + e)
    case Ok(url) =>
      if url.path == "" || url.path == "/" then Err("contract client: no path to localize")
      else Ok(baseURL + url.path + if url.query != "" then "?" + url.query else "")
  }

  /** The id stays canonical: the document's own, or else the reference it was reached by. */
  function WithCanonicalID(dr: DataResource, ref: string): DataResource {
    if dr.id == "" then dr.(id := ref) else dr
  }

  /** The i-th reference of an offering, resolved by the fetch numbered n + i. */
  function ResolveRef(web: Web, baseURL: string, n: nat, refs: seq<string>, i: nat): Result<DataResource, string>
    requires i < |refs|
  {
    match Localize(web, baseURL, refs[i])
    case Err(e) => Err(e)
    case Ok(url) =>
      match web.resource(n + i, url)
      case Err(e) => Err(e)
      case Ok(dr) => Ok(WithCanonicalID(dr, refs[i]))
  }

  // ---- the host a URL names --------------------------------------------------------------------------

  const SCHEME_END: string := "://"

  /** The characters that end an authority (RFC 3986, section 3.2). */
  predicate EndsAuthority(c: char) { c == '/' || c == '?' || c == '#' }

  predicate HasEnd(s: string) { exists i :: 0 <= i < |s| && EndsAuthority(s[i]) }

  /** What stands before the first such character. */
  function UpToEnd(s: string): string {
    if s == "" || EndsAuthority(s[0]) then "" else [s[0]] + UpToEnd(s[1..])
  }

  /** What follows the scheme, if there is one. */
  function AfterScheme(url: string): Option<string> {
    match CutBefore(url, SCHEME_END)
    case Some(scheme) => CutAtFirst(url, SCHEME_END); Some(url[|scheme| + |SCHEME_END|..])
    case None => None
  }

  /** User, host and port: where a request for the URL goes. */
  function Authority(url: string): Option<string> {
    match AfterScheme(url)
    case Some(rest) => Some(UpToEnd(rest))
    case None => None
  }

  lemma {:induction false} CutExtends(s: string, tail: string, sep: string)
    requires CutBefore(s, sep).Some?
    ensures CutBefore(s + tail, sep) == CutBefore(s, sep)
    decreases |s|
  {
    if sep <= s {
      assert sep <= s + tail;
    } else {
      CutAtFirst(s, sep);
      assert s != "" && (s + tail)[1..] == s[1..] + tail;
      CutExtends(s[1..], tail, sep);
      NotYetCut(s, tail, sep);
    }
  }

  lemma NotYetCut(s: string, tail: string, sep: string)
    requires CutBefore(s, sep).Some? && !(sep <= s)
    ensures !(sep <= s + tail)
  {
    CutAtFirst(s, sep);
    assert |sep| <= |s|;
    assert (s + tail)[..|sep|] == s[..|sep|];
  }

  lemma {:induction false} UpToEndExtends(s: string, tail: string)
    requires tail != ""
    ensures UpToEnd(s + tail) == UpToEnd(s) <==> HasEnd(s) || EndsAuthority(tail[0])
  {
    if s == "" {
      assert s + tail == tail;
    } else {
      assert (s + tail)[1..] == s[1..] + tail;
      if !EndsAuthority(s[0]) {
        UpToEndExtends(s[1..], tail);
        assert UpToEnd(s)[1..] == UpToEnd(s[1..]) && UpToEnd(s + tail)[1..] == UpToEnd(s[1..] + tail);
        assert HasEnd(s) <==> HasEnd(s[1..]) by {
          assert forall i :: 0 < i < |s| ==> s[i] == s[1..][i - 1];
        }
      }
    }
  }

  /** Text put after a base leaves the authority alone exactly when it cannot run into it. */
  lemma ExtendsAuthority(base: string, tail: string)
    requires Authority(base).Some? && tail != ""
    ensures Authority(base + tail) == Authority(base)
       <==> HasEnd(AfterScheme(base).value) || EndsAuthority(tail[0])
  {
    CutExtends(base, tail, SCHEME_END);
    CutAtFirst(base, SCHEME_END);
    var rest := AfterScheme(base).value;
    assert AfterScheme(base + tail) == Some(rest + tail) by {
      var k := |CutBefore(base, SCHEME_END).value| + |SCHEME_END|;
      assert (base + tail)[k..] == base[k..] + tail;
    }
    UpToEndExtends(rest, tail);
  }

  /** A reference whose path cannot run into the base's authority. */
  predicate StaysOnBase(web: Web, baseURL: string, raw: string)
    requires Authority(baseURL).Some? && web.parse(raw).Ok? && web.parse(raw).value.path != ""
  {
    HasEnd(AfterScheme(baseURL).value) || EndsAuthority(web.parse(raw).value.path[0])
  }

  /**
   * A localized URL goes to the base's authority exactly when the reference's path starts with a
   * slash (or another character that ends an authority), or the base has a path of its own.
   */
  lemma LocalizedExactly(web: Web, baseURL: string, raw: string)
    requires Authority(baseURL).Some? && Localize(web, baseURL, raw).Ok?
    ensures Authority(Localize(web, baseURL, raw).value) == Authority(baseURL) <==> StaysOnBase(web, baseURL, raw)
  {
    var url := web.parse(raw).value;
    var tail := url.path + if url.query != "" then "?" + url.query else "";
    assert Localize(web, baseURL, raw).value == baseURL + tail;
    ExtendsAuthority(baseURL, tail);
  }

  /** A reference is refused exactly when it does not parse, or has no path to keep. */
  lemma RefusedExactly(web: Web, baseURL: string, raw: string)
    ensures Localize(web, baseURL, raw).Err?
       <==> web.parse(raw).Err? || web.parse(raw).value.path == "" || web.parse(raw).value.path == "/"
  {
  }

  /** The path and query a localized URL carries over. */
  function Carried(url: Url): string {
    url.path + QueryPart(url)
  }

  function QueryPart(url: Url): string {
    if url.query != "" then "?" + url.query else ""
  }

  /** One path runs on past a question mark where the other's query begins. */
  predicate RunsInto(x: Url, y: Url) {
    && x.query != "" && x.path + "?" <= y.path
    && x.query == y.path[|x.path| + 1..] + QueryPart(y)
  }

  lemma ShorterRunsInto(x: Url, y: Url)
    requires Carried(x) == Carried(y) && |x.path| < |y.path|
    ensures RunsInto(x, y)
  {
    var head, rest := y.path[..|x.path|], y.path[|x.path|..];
    assert y.path == head + rest;
    assert Carried(y) == head + (rest + QueryPart(y));
    SameHeads(x.path, QueryPart(x), head, rest + QueryPart(y));
    QueryStarts(x, rest, QueryPart(y));
    assert y.path == x.path + "?" + rest[1..];
  }

  lemma QueryStarts(x: Url, rest: string, more: string)
    requires QueryPart(x) == rest + more && rest != ""
    ensures x.query != "" && rest == "?" + rest[1..] && x.query == rest[1..] + more
  {
    assert rest == [rest[0]] + rest[1..];
    assert rest + more == [rest[0]] + (rest[1..] + more);
    SameHeads("?", x.query, [rest[0]], rest[1..] + more);
  }

  lemma SamePathDetermines(x: Url, y: Url)
    requires Carried(x) == Carried(y) && |x.path| == |y.path|
    ensures x == y
  {
    SameHeads(x.path, QueryPart(x), y.path, QueryPart(y));
    if x.query != "" && y.query != "" {
      SameHeads("?", x.query, "?", y.query);
    }
  }

  lemma RunningIntoCollides(x: Url, y: Url)
    requires RunsInto(x, y)
    ensures Carried(x) == Carried(y)
  {
    var rest := y.path[|x.path| + 1..];
    assert y.path == x.path + "?" + rest;
    Regrouped(x.path, "?", rest, QueryPart(y));
  }

  lemma Regrouped(a: string, b: string, c: string, d: string)
    ensures a + (b + (c + d)) == a + b + c + d
  {
  }

  lemma CarriedExactly(x: Url, y: Url)
    ensures Carried(x) == Carried(y) <==> x == y || RunsInto(x, y) || RunsInto(y, x)
  {
    if Carried(x) == Carried(y) {
      if |x.path| < |y.path| {
        ShorterRunsInto(x, y);
      } else if |y.path| < |x.path| {
        ShorterRunsInto(y, x);
      } else {
        SamePathDetermines(x, y);
      }
    } else if RunsInto(x, y) {
      RunningIntoCollides(x, y);
    } else if RunsInto(y, x) {
      RunningIntoCollides(y, x);
    }
  }

  /**
   * Two references localize to one URL exactly when they agree on path and query, or one's path holds a
   * question mark just where the other's query begins and they run on alike; whatever their hosts.
   */
  lemma LocalizedDetermines(web: Web, baseURL: string, raw: string, other: string)
    requires Localize(web, baseURL, raw).Ok? && Localize(web, baseURL, other).Ok?
    ensures var x, y := web.parse(raw).value, web.parse(other).value;
      Localize(web, baseURL, raw) == Localize(web, baseURL, other) <==> x == y || RunsInto(x, y) || RunsInto(y, x)
  {
    var x, y := web.parse(raw).value, web.parse(other).value;
    assert Localize(web, baseURL, raw).value == baseURL + Carried(x);
    assert Localize(web, baseURL, other).value == baseURL + Carried(y);
    assert (baseURL + Carried(x))[|baseURL|..] == Carried(x) && (baseURL + Carried(y))[|baseURL|..] == Carried(y);
    CarriedExactly(x, y);
  }

  /** The path /a?b without a query and the path /a with the query b make one URL. */
  lemma DecodedMarkCollides(web: Web, baseURL: string, raw: string, other: string)
    requires web.parse(raw) == Ok(Url("/a?b", "")) && web.parse(other) == Ok(Url("/a", "b"))
    ensures Localize(web, baseURL, raw) == Localize(web, baseURL, other) == Ok(baseURL + "/a?b")
  {
    assert baseURL + "/a?b" + "" == baseURL + "/a?b";
    assert "/a" + ("?" + "b") == "/a?b";
    assert baseURL + "/a" + ("?" + "b") == baseURL + ("/a" + ("?" + "b"));
  }

  /** A verify URL always goes to the authority of the base. */
  lemma VerifyStaysOnBase(baseURL: string, provider: seq<Byte>, consumer: seq<Byte>)
    requires Authority(baseURL).Some?
    ensures Authority(baseURL + VerifyPath(provider, consumer)) == Authority(baseURL)
  {
    ExtendsAuthority(baseURL, VerifyPath(provider, consumer));
  }

  lemma {:induction false} UpToEndOf(host: string, tail: string)
    requires !HasEnd(host) && (tail != "" ==> EndsAuthority(tail[0]))
    ensures UpToEnd(host + tail) == host
  {
    if host == "" {
      assert host + tail == tail;
    } else {
      assert (host + tail)[1..] == host[1..] + tail && !HasEnd(host[1..]);
      UpToEndOf(host[1..], tail);
    }
  }

  lemma AuthorityOf(scheme: string, host: string, tail: string)
    requires ':' !in scheme && !HasEnd(host) && (tail != "" ==> EndsAuthority(tail[0]))
    ensures Authority(scheme + SCHEME_END + host + tail) == Some(host)
  {
    var url, head := scheme + SCHEME_END + host + tail, scheme + SCHEME_END;
    CutAfter(scheme, SCHEME_END, url);
    assert url[|head|..] == host + tail;
    UpToEndOf(host, tail);
  }

  const SCHEME: string := "http"
  const HOST: string := "facade:8080"
  const OTHER: string := "@other"

  lemma WitnessParts()
    ensures ':' !in SCHEME && !HasEnd(HOST) && !HasEnd(OTHER)
  {
  }

  /**
   * The two authorities do part: on the base http://facade:8080, a reference that parses to the path
   * @other/x makes a URL whose authority is facade:8080@other.
   */
  lemma RootlessLeavesBase(web: Web, raw: string)
    requires web.parse(raw) == Ok(Url(OTHER + "/x", ""))
    ensures var base := SCHEME + SCHEME_END + HOST;
      && Authority(base) == Some(HOST)
      && Localize(web, base, raw) == Ok(base + OTHER + "/x")
      && Authority(base + OTHER + "/x") == Some(HOST + OTHER)
  {
    WitnessParts();
    var base := SCHEME + SCHEME_END + HOST;
    AuthorityOf(SCHEME, HOST, "");
    assert base + "" == base;
    assert !HasEnd(HOST + OTHER) by {
      assert forall i :: |HOST| <= i < |HOST + OTHER| ==> (HOST + OTHER)[i] == OTHER[i - |HOST|];
    }
    AuthorityOf(SCHEME, HOST + OTHER, "/x");
    assert SCHEME + SCHEME_END + (HOST + OTHER) + "/x" == base + OTHER + "/x";
    assert base + (OTHER + "/x") + "" == base + OTHER + "/x";
  }

  // ---- dereferencing an offering ---------------------------------------------------------------------

  /** The first k references, resolved in order up to the first failure; and the URLs fetched. */
  function RefsUpTo(web: Web, baseURL: string, n: nat, refs: seq<string>, k: nat)
    : (Result<seq<DataResource>, string>, seq<string>)
    requires k <= |refs|
  {
    if k == 0 then (Ok([]), [])
    else
      var (before, urls) := RefsUpTo(web, baseURL, n, refs, k - 1);
      if before.Err? then (before, urls)
      else
        match Localize(web, baseURL, refs[k - 1])
        case Err(e) => (Err(e), urls)
        case Ok(url) =>
          match web.resource(n + k - 1, url)
          case Err(e) => (Err(e), urls + [url])
          case Ok(dr) => (Ok(before.value + [WithCanonicalID(dr, refs[k - 1])]), urls + [url])
  }

  /** The resources an offering leads to, or the first failure; and the URLs fetched. */
  function Dereferenced(web: Web, baseURL: string, n: nat, offering: string)
    : (Result<seq<DataResource>, string>, seq<string>)
  {
    if offering == "" then (Ok([]), [])
    else
      match Localize(web, baseURL, offering)
      case Err(e) => (Err(e), [])
      case Ok(url) =>
        match web.offering(n, url)
        case Err(e) => (Err(e), [url])
        case Ok(refs) =>
          var (r, urls) := RefsUpTo(web, baseURL, n + 1, refs, |refs|);
          (r, [url] + urls)
  }

  lemma {:induction false} RefsStopAtError(web: Web, baseURL: string, n: nat, refs: seq<string>, j: nat, k: nat)
    requires j <= k <= |refs| && RefsUpTo(web, baseURL, n, refs, j).0.Err?
    ensures RefsUpTo(web, baseURL, n, refs, k) == RefsUpTo(web, baseURL, n, refs, j)
    decreases k
  {
    if j < k {
      RefsStopAtError(web, baseURL, n, refs, j, k - 1);
    }
  }

  /** The reference at i is the first that does not resolve. */
  predicate FirstRefFails(web: Web, baseURL: string, n: nat, refs: seq<string>, i: nat, e: string) {
    && i < |refs| && ResolveRef(web, baseURL, n, refs, i) == Err(e)
    && forall j :: 0 <= j < i ==> ResolveRef(web, baseURL, n, refs, j).Ok?
  }

  /** The URLs are the first references localized, in order. */
  predicate AreLocalized(web: Web, baseURL: string, refs: seq<string>, urls: seq<string>) {
    |urls| <= |refs| && forall j :: 0 <= j < |urls| ==> Localize(web, baseURL, refs[j]) == Ok(urls[j])
  }

  predicate AllResolved(web: Web, baseURL: string, n: nat, refs: seq<string>, resources: seq<DataResource>) {
    |resources| <= |refs|
    && forall j :: 0 <= j < |resources| ==> ResolveRef(web, baseURL, n, refs, j) == Ok(resources[j])
  }

  /** Every reference resolved, or the first failure reported; and nothing fetched beyond it. */
  ghost predicate RefsExact(web: Web, baseURL: string, n: nat, refs: seq<string>, k: nat,
                            r: Result<seq<DataResource>, string>, urls: seq<string>) {
    && AreLocalized(web, baseURL, refs, urls)
    && (match r
        case Ok(resources) => |resources| == |urls| == k && AllResolved(web, baseURL, n, refs, resources)
        case Err(e) => exists i: nat :: StopsAt(web, baseURL, n, refs, i, e, |urls|))
  }

  /** The failing reference was fetched if it could be localized. */
  ghost predicate StopsAt(web: Web, baseURL: string, n: nat, refs: seq<string>, i: nat, e: string, fetches: nat) {
    && FirstRefFails(web, baseURL, n, refs, i, e)
    && fetches == i + if Localize(web, baseURL, refs[i]).Ok? then 1 else 0
  }

  /** What RefsUpTo says about its own first k references. */
  ghost predicate RefsExactUpTo(web: Web, baseURL: string, n: nat, refs: seq<string>, k: nat)
    requires k <= |refs|
  {
    var (r, urls) := RefsUpTo(web, baseURL, n, refs, k); RefsExact(web, baseURL, n, refs, k, r, urls)
  }

  lemma OneMoreRef(web: Web, baseURL: string, n: nat, refs: seq<string>, k: nat)
    requires k < |refs| && RefsUpTo(web, baseURL, n, refs, k).0.Ok? && RefsExactUpTo(web, baseURL, n, refs, k)
    ensures RefsExactUpTo(web, baseURL, n, refs, k + 1)
  {
    var (r, urls) := RefsUpTo(web, baseURL, n, refs, k + 1);
    if r.Err? {
      assert StopsAt(web, baseURL, n, refs, k, r.error, |urls|);
    }
  }

  lemma NoMoreRefs(web: Web, baseURL: string, n: nat, refs: seq<string>, k: nat)
    requires k < |refs| && RefsUpTo(web, baseURL, n, refs, k).0.Err? && RefsExactUpTo(web, baseURL, n, refs, k)
    ensures RefsExactUpTo(web, baseURL, n, refs, k + 1)
  {
  }

  lemma {:induction false} RefsExactly(web: Web, baseURL: string, n: nat, refs: seq<string>, k: nat)
    requires k <= |refs|
    ensures var (r, urls) := RefsUpTo(web, baseURL, n, refs, k); RefsExact(web, baseURL, n, refs, k, r, urls)
  {
    if k > 0 {
      RefsExactly(web, baseURL, n, refs, k - 1);
      if RefsUpTo(web, baseURL, n, refs, k - 1).0.Ok? {
        OneMoreRef(web, baseURL, n, refs, k - 1);
      } else {
        NoMoreRefs(web, baseURL, n, refs, k - 1);
      }
    }
  }

  /** The document is what the fetch of the reference returned, but for an id it did not have. */
  predicate IsDocument(web: Web, baseURL: string, n: nat, ref: string, dr: DataResource) {
    && Localize(web, baseURL, ref).Ok?
    && var fetched := web.resource(n, Localize(web, baseURL, ref).value);
       && fetched.Ok? && dr.name == fetched.value.name && dr.containsPII == fetched.value.containsPII
       && (fetched.value.id != "" ==> dr.id == fetched.value.id) && (fetched.value.id == "" ==> dr.id == ref)
  }

  /** Every reference was fetched in its turn, and gave its document under its canonical id. */
  lemma DocumentsExactly(web: Web, baseURL: string, n: nat, refs: seq<string>)
    requires RefsUpTo(web, baseURL, n, refs, |refs|).0.Ok?
    ensures var resources := RefsUpTo(web, baseURL, n, refs, |refs|).0.value;
      |resources| == |refs| && forall i :: 0 <= i < |refs| ==> IsDocument(web, baseURL, n + i, refs[i], resources[i])
  {
    RefsExactly(web, baseURL, n, refs, |refs|);
    var resources := RefsUpTo(web, baseURL, n, refs, |refs|).0.value;
    forall i | 0 <= i < |refs| ensures IsDocument(web, baseURL, n + i, refs[i], resources[i]) {
      assert ResolveRef(web, baseURL, n, refs, i) == Ok(resources[i]);
    }
  }

  /** Without an offering nothing is fetched; one that cannot be localized or fetched ends it. */
  lemma OfferingExactly(web: Web, baseURL: string, n: nat, offering: string)
    ensures Dereferenced(web, baseURL, n, "") == (Ok([]), [])
    ensures var (r, urls), local := Dereferenced(web, baseURL, n, offering), Localize(web, baseURL, offering);
      && (offering != "" && local.Err? ==> r == Err(local.error) && urls == [])
      && (offering != "" && local.Ok? && web.offering(n, local.value).Err? ==>
            r == Err(web.offering(n, local.value).error) && urls == [local.value])
  {
  }

  /** Where the i-th fetch of a dereference came from: the offering, then its references. */
  function SourceOf(offering: string, refs: seq<string>, i: nat): string
    requires i <= |refs|
  {
    if i == 0 then offering else refs[i - 1]
  }

  /** What a dereference that reaches the references does, in full. */
  lemma DereferencedExactly(web: Web, baseURL: string, n: nat, offering: string, refs: seq<string>)
    requires offering != "" && Localize(web, baseURL, offering).Ok?
    requires web.offering(n, Localize(web, baseURL, offering).value) == Ok(refs)
    ensures var (r, urls) := Dereferenced(web, baseURL, n, offering);
      && urls != [] && urls[0] == Localize(web, baseURL, offering).value
      && RefsExact(web, baseURL, n + 1, refs, |refs|, r, urls[1..])
  {
    RefsExactly(web, baseURL, n + 1, refs, |refs|);
    var (r, urls) := RefsUpTo(web, baseURL, n + 1, refs, |refs|);
    assert ([Localize(web, baseURL, offering).value] + urls)[1..] == urls;
  }

  /** Each fetch goes to the base's authority exactly when its own reference cannot run into it. */
  lemma FetchesStayExactly(web: Web, baseURL: string, n: nat, offering: string, refs: seq<string>, i: nat)
    requires Authority(baseURL).Some? && offering != "" && Localize(web, baseURL, offering).Ok?
    requires web.offering(n, Localize(web, baseURL, offering).value) == Ok(refs)
    requires i < |Dereferenced(web, baseURL, n, offering).1|
    ensures i <= |refs| && Localize(web, baseURL, SourceOf(offering, refs, i)).Ok?
    ensures Authority(Dereferenced(web, baseURL, n, offering).1[i]) == Authority(baseURL)
       <==> StaysOnBase(web, baseURL, SourceOf(offering, refs, i))
  {
    DereferencedExactly(web, baseURL, n, offering, refs);
    var urls := Dereferenced(web, baseURL, n, offering).1;
    assert urls[i] == Localize(web, baseURL, SourceOf(offering, refs, i)).value by {
      if i > 0 { assert urls[i] == urls[1..][i - 1]; }
    }
    LocalizedExactly(web, baseURL, SourceOf(offering, refs, i));
  }

  class Client {
    const baseURL: string
    const web: Web
    var fetched: seq<string>

    constructor (baseURL: string, web: Web)
      ensures this.baseURL == TrimRight(baseURL, '/') && this.web == web && fetched == []
    {
      this.baseURL, this.web, fetched := TrimRight(baseURL, '/'), web, [];
    }

    /** An unverified pair has no contracts; of a verified one, only the signed count. */
    method SignedContracts(provider: seq<Byte>, consumer: seq<Byte>) returns (r: Result<seq<Contract>, string>)
      modifies this
      ensures fetched == old(fetched) + [baseURL + VerifyPath(provider, consumer)]
      ensures match web.verify(old(|fetched|), baseURL + VerifyPath(provider, consumer))
              case Err(e) => r == Err(e)
              case Ok(out) =>
                && r == Ok(if out.verified then Signed(out.contracts) else [])
                && forall c :: c in r.value <==> out.verified && c in out.contracts && SpellsSigned(c.status)
    {
      var endpoint := baseURL + VerifyPath(provider, consumer);
      var answer := web.verify(|fetched|, endpoint);
      fetched := fetched + [endpoint];
      if answer.Err? {
        return Err(answer.error);
      }
      var out := answer.value;
      if !out.verified {
        return Ok([]);
      }
      var signed: seq<Contract> := [];
      for i := 0 to |out.contracts|
        invariant signed == Signed(out.contracts[..i])
      {
        assert Init(out.contracts[..i + 1]) == out.contracts[..i];
        if IsSigned(out.contracts[i]) {
          signed := signed + [out.contracts[i]];
        }
      }
      assert out.contracts[..|out.contracts|] == out.contracts;
      forall c ensures c in signed <==> c in out.contracts && SpellsSigned(c.status) {
        SignedExactly(out.contracts, c);
      }
      return Ok(signed);
    }

    /** The offering, then each of its references, until something fails. */
    method DataResources(c: Contract) returns (r: Result<seq<DataResource>, string>)
      modifies this
      ensures var (outcome, urls) := Dereferenced(web, baseURL, old(|fetched|), c.serviceOffering);
        r == outcome && fetched == old(fetched) + urls
    {
      if c.serviceOffering == "" {
        return Ok([]);
      }
      var offeringURL := Localize(web, baseURL, c.serviceOffering);
      if offeringURL.Err? {
        return Err(offeringURL.error);
      }
      var offering := web.offering(|fetched|, offeringURL.value);
      fetched := fetched + [offeringURL.value];
      if offering.Err? {
        return Err(offering.error);
      }
      r := ResolveAll(offering.value);
    }

    /** The loop over an offering's references. */
    method ResolveAll(refs: seq<string>) returns (r: Result<seq<DataResource>, string>)
      modifies this
      ensures var (outcome, urls) := RefsUpTo(web, baseURL, old(|fetched|), refs, |refs|);
        r == outcome && fetched == old(fetched) + urls
    {
      ghost var n := |fetched|;
      var resources: seq<DataResource> := [];
      for i := 0 to |refs|
        invariant RefsUpTo(web, baseURL, n, refs, i).0 == Ok(resources)
        invariant fetched == old(fetched) + RefsUpTo(web, baseURL, n, refs, i).1 && |fetched| == n + i
      {
        var url := Localize(web, baseURL, refs[i]);
        if url.Err? {
          RefsStopAtError(web, baseURL, n, refs, i + 1, |refs|);
          return Err(url.error);
        }
        var dr := web.resource(|fetched|, url.value);
        fetched := fetched + [url.value];
        if dr.Err? {
          RefsStopAtError(web, baseURL, n, refs, i + 1, |refs|);
          return Err(dr.error);
        }
        resources := resources + [WithCanonicalID(dr.value, refs[i])];
      }
      return Ok(resources);
    }
  }
}
