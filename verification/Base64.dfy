/** base64_encode and base64_decode of custom_ops/gpu_ops/helper.h: RFC 4648 section 4
    with the 64 letters in another order. */
module Base64 {

  const FIRST_LETTERS: string := ("Tokp9lA/" + "BjimRVKx") + ("32edMPFf" + "tOzsbNQ8")
  const LAST_LETTERS: string := ("C15Xn+YU" + "EGc4WD0u") + ("LIq7hyJ6" + "vZaHSwrg")
  const ALPHABET: string := FIRST_LETTERS + LAST_LETTERS

  /** std::string::find: the first place of c, or -1 for npos. */
  function Find(s: string, c: char): (i: int)
    ensures -1 <= i < |s| && (i >= 0 ==> s[i] == c)
    ensures i == -1 <==> c !in s
  {
    if s == [] then -1 else if s[0] == c then 0 else
      var i := Find(s[1..], c);
      if i == -1 then -1 else i + 1
  }

  /** The place of each letter, written out. */
  function Place(c: char): int {
    if 'a' <= c <= 'z' then PlaceOfSmall(c) else if 'A' <= c <= 'Z' then PlaceOfCapital(c) else PlaceOfOther(c)
  }

  function PlaceOfSmall(c: char): int {
    match c
    case 'a' => 58 case 'b' => 28 case 'c' => 42 case 'd' => 19 case 'e' => 18 case 'f' => 23
    case 'g' => 63 case 'h' => 52 case 'i' => 10 case 'j' => 9  case 'k' => 2  case 'l' => 5
    case 'm' => 11 case 'n' => 36 case 'o' => 1  case 'p' => 3  case 'q' => 50 case 'r' => 62
    case 's' => 27 case 't' => 24 case 'u' => 47 case 'v' => 56 case 'w' => 61 case 'x' => 15
    case 'y' => 53 case 'z' => 26
    case _ => -1
  }

  function PlaceOfCapital(c: char): int {
    match c
    case 'A' => 6  case 'B' => 8  case 'C' => 32 case 'D' => 45 case 'E' => 40 case 'F' => 22
    case 'G' => 41 case 'H' => 59 case 'I' => 49 case 'J' => 54 case 'K' => 14 case 'L' => 48
    case 'M' => 20 case 'N' => 29 case 'O' => 25 case 'P' => 21 case 'Q' => 30 case 'R' => 12
    case 'S' => 60 case 'T' => 0  case 'U' => 39 case 'V' => 13 case 'W' => 44 case 'X' => 35
    case 'Y' => 38 case 'Z' => 57
    case _ => -1
  }

  function PlaceOfOther(c: char): int {
    match c
    case '0' => 46 case '1' => 33 case '2' => 17 case '3' => 16 case '4' => 43 case '5' => 34
    case '6' => 55 case '7' => 51 case '8' => 31 case '9' => 4  case '+' => 37 case '/' => 7
    case _ => -1
  }

  lemma FirstPlaces(i: nat)
    requires i < 32
    ensures Place(FIRST_LETTERS[i]) == i
  {
    match i
    case 0 => case 1 => case 2 => case 3 => case 4 => case 5 => case 6 => case 7 =>
    case 8 => case 9 => case 10 => case 11 => case 12 => case 13 => case 14 => case 15 =>
    case 16 => case 17 => case 18 => case 19 => case 20 => case 21 => case 22 => case 23 =>
    case 24 => case 25 => case 26 => case 27 => case 28 => case 29 => case 30 => case 31 =>
    case _ =>
  }

  lemma ThirdPlaces(i: nat)
    requires i < 16
    ensures Place(LAST_LETTERS[i]) == 32 + i
  {
    match i
    case 0 => case 1 => case 2 => case 3 => case 4 => case 5 => case 6 => case 7 =>
    case 8 => case 9 => case 10 => case 11 => case 12 => case 13 => case 14 => case 15 =>
    case _ =>
  }

  lemma LastPlaces(i: nat)
    requires 16 <= i < 32
    ensures Place(LAST_LETTERS[i]) == 32 + i
  {
    match i
    case 16 => case 17 => case 18 => case 19 => case 20 => case 21 => case 22 => case 23 =>
    case 24 => case 25 => case 26 => case 27 => case 28 => case 29 => case 30 => case 31 =>
    case _ =>
  }

  /** No letter occurs twice. */
  lemma FindsLetter(x: bv8)
    requires x < 64
    ensures Find(ALPHABET, ALPHABET[x as int]) == x as int
  {
    hide Place;
    LetterPlace(x as int);
    LetterPlace(Find(ALPHABET, ALPHABET[x as int]));
  }

  lemma LetterPlace(i: nat)
    requires i < 64
    ensures Place(ALPHABET[i]) == i
  {
    hide Place;
    if i < 32 {
      FirstPlaces(i);
    } else if i < 48 {
      ThirdPlaces(i - 32);
    } else {
      LastPlaces(i - 32);
    }
  }

  // ---------- three octets, four sextets ----------

  datatype Quad = Quad(c0: bv8, c1: bv8, c2: bv8, c3: bv8)

  function Split(a: bv8, b: bv8, c: bv8): Quad {
    Quad((a & 0xfc) >> 2, ((a & 0x03) << 4) + ((b & 0xf0) >> 4), ((b & 0x0f) << 2) + ((c & 0xc0) >> 6), c & 0x3f)
  }

  function Join(q: Quad): (bv8, bv8, bv8) {
    ((q.c0 << 2) + ((q.c1 & 0x30) >> 4), ((q.c1 & 0xf) << 4) + ((q.c2 & 0x3c) >> 2), ((q.c2 & 0x3) << 6) + q.c3)
  }

  lemma JoinSplit(a: bv8, b: bv8, c: bv8)
    ensures var q := Split(a, b, c); q.c0 < 64 && q.c1 < 64 && q.c2 < 64 && q.c3 < 64 && Join(q) == (a, b, c)
  {}

  /** The octets before a padded tail do not depend on what stands for the padding. */
  lemma JoinTail(a: bv8, b: bv8, x: bv8, y: bv8)
    ensures Join(Quad(Split(a, b, 0).c0, Split(a, b, 0).c1, Split(a, b, 0).c2, y)).0 == a
    ensures Join(Quad(Split(a, b, 0).c0, Split(a, b, 0).c1, Split(a, b, 0).c2, y)).1 == b
    ensures Join(Quad(Split(a, 0, 0).c0, Split(a, 0, 0).c1, x, y)).0 == a
  {}

  // ---------- what the two functions compute ----------

  function Letters(q: Quad): (s: string)
    requires q.c0 < 64 && q.c1 < 64 && q.c2 < 64 && q.c3 < 64
    ensures |s| == 4
  {
    [ALPHABET[q.c0 as int], ALPHABET[q.c1 as int], ALPHABET[q.c2 as int], ALPHABET[q.c3 as int]]
  }

  function Four(a: bv8, b: bv8, c: bv8): (s: string)
    ensures |s| == 4
  {
    JoinSplit(a, b, c);
    Letters(Split(a, b, c))
  }

  function Encoded(s: seq<bv8>): string {
    if s == [] then ""
    else if |s| == 1 then Four(s[0], 0, 0)[..2] + "=="
    else if |s| == 2 then Four(s[0], s[1], 0)[..3] + "="
    else Four(s[0], s[1], s[2]) + Encoded(s[3..])
  }

  predicate IsAlnum(c: char) {
    'a' <= c <= 'z' || 'A' <= c <= 'Z' || '0' <= c <= '9'
  }

  predicate Accepted(c: char) {
    c != '=' && (IsAlnum(c) || c == '+' || c == '/')
  }

  /** What find leaves in an unsigned char: 255 for npos. */
  function Lookup(c: char): bv8 {
    var i := Find(ALPHABET, c);
    if i == -1 then 255 else i as bv8
  }

  function Three(a: bv8, b: bv8, c: bv8, d: bv8): (t: seq<bv8>)
    ensures |t| == 3
  {
    var j := Join(Quad(a, b, c, d));
    [j.0, j.1, j.2]
  }

  /** How many characters, at most four, come before the first that is not accepted. */
  function Leading(s: string): (n: nat)
    ensures n <= 4 && n <= |s| && (forall i :: 0 <= i < n ==> Accepted(s[i])) && (n < 4 && n < |s| ==> !Accepted(s[n]))
  {
    if s == "" || !Accepted(s[0]) then 0
    else if |s| == 1 || !Accepted(s[1]) then 1
    else if |s| == 2 || !Accepted(s[2]) then 2
    else if |s| == 3 || !Accepted(s[3]) then 3
    else 4
  }

  /** The letters of an incomplete group, '\0' standing for those missing. */
  function DecodeTail(u: string): seq<bv8>
    requires |u| <= 3
  {
    if u == "" then []
    else
      Three(Lookup(u[0]), Lookup(if |u| > 1 then u[1] else '\0'), Lookup(if |u| > 2 then u[2] else '\0'),
            Lookup('\0'))[..|u| - 1]
  }

  function Decoded(s: string): seq<bv8> {
    var n := Leading(s);
    if n == 4 then Three(Lookup(s[0]), Lookup(s[1]), Lookup(s[2]), Lookup(s[3])) + Decoded(s[4..])
    else DecodeTail(s[..n])
  }

  // ---------- decoding undoes encoding ----------

  lemma PlacedAccepted(c: char)
    requires Place(c) >= 0
    ensures Accepted(c)
  {}

  lemma SmallBack(c: char)
    requires 'a' <= c <= 'z'
    ensures 0 <= Place(c) < 64 && ALPHABET[Place(c)] == c
  {}

  lemma CapitalBack(c: char)
    requires 'A' <= c <= 'Z'
    ensures 0 <= Place(c) < 64 && ALPHABET[Place(c)] == c
  {}

  lemma OtherBack(c: char)
    requires '0' <= c <= '9' || c == '+' || c == '/'
    ensures 0 <= Place(c) < 64 && ALPHABET[Place(c)] == c
  {}

  /** The decoder accepts exactly the letters of the alphabet. */
  lemma AcceptedIsLetter(c: char)
    ensures Accepted(c) <==> c in ALPHABET
  {
    hide Place;
    if Accepted(c) {
      if 'a' <= c <= 'z' {
        SmallBack(c);
      } else if 'A' <= c <= 'Z' {
        CapitalBack(c);
      } else {
        OtherBack(c);
      }
    } else if c in ALPHABET {
      var i :| 0 <= i < |ALPHABET| && ALPHABET[i] == c;
      LetterPlace(i);
      PlacedAccepted(c);
    }
  }

  /** A letter of the alphabet is accepted, and looked up to what it stands for. */
  lemma LetterBack(x: bv8)
    requires x < 64
    ensures Accepted(ALPHABET[x as int]) && Lookup(ALPHABET[x as int]) == x
  {
    hide Place, Accepted, Find;
    LetterPlace(x as int);
    PlacedAccepted(ALPHABET[x as int]);
    FindsLetter(x);
  }

  lemma FourBack(a: bv8, b: bv8, c: bv8)
    ensures var f, q := Four(a, b, c), Split(a, b, c);
      (forall i :: 0 <= i < 4 ==> Accepted(f[i])) &&
      Lookup(f[0]) == q.c0 && Lookup(f[1]) == q.c1 && Lookup(f[2]) == q.c2 && Lookup(f[3]) == q.c3
  {
    hide Accepted, Lookup, Split;
    JoinSplit(a, b, c);
    var q := Split(a, b, c);
    LetterBack(q.c0);
    LetterBack(q.c1);
    LetterBack(q.c2);
    LetterBack(q.c3);
  }

  /** Both padded tails: the octets that the fillers would give are not put out. */
  lemma TailBack(a: bv8, b: bv8)
    ensures Decoded(Four(a, 0, 0)[..2] + "==") == [a]
    ensures Decoded(Four(a, b, 0)[..3] + "=") == [a, b]
  {
    hide Lookup, Split, Join, Four, Find;
    FourBack(a, 0, 0);
    FourBack(a, b, 0);
    JoinTail(a, b, Lookup('\0'), Lookup('\0'));
    var one, two := Four(a, 0, 0)[..2] + "==", Four(a, b, 0)[..3] + "=";
    assert Leading(one) == 2 && one[..2] == Four(a, 0, 0)[..2];
    assert Leading(two) == 3 && two[..3] == Four(a, b, 0)[..3];
  }

  lemma GroupBack(a: bv8, b: bv8, c: bv8, rest: string)
    ensures Decoded(Four(a, b, c) + rest) == [a, b, c] + Decoded(rest)
  {
    hide Lookup, Split, Join, Four, Find, Accepted;
    FourBack(a, b, c);
    JoinSplit(a, b, c);
    var e := Four(a, b, c) + rest;
    assert Leading(e) == 4 && e[4..] == rest;
  }

  lemma {:induction false} RoundTrip(s: seq<bv8>)
    ensures Decoded(Encoded(s)) == s
    ensures |Encoded(s)| == 4 * ((|s| + 2) / 3)
  {
    hide Four, Decoded;
    if |s| == 0 {
      DecodedNothing();
    } else if |s| == 1 {
      TailBack(s[0], 0);
    } else if |s| == 2 {
      TailBack(s[0], s[1]);
    } else {
      RoundTrip(s[3..]);
      GroupBack(s[0], s[1], s[2], Encoded(s[3..]));
    }
  }

  lemma DecodedNothing()
    ensures Decoded("") == []
  {}

  // ---------- the code is that of RFC 4648 ----------

  lemma HighBits(a: bv8)
    ensures ((a & 0xfc) >> 2) as int == a as int / 4
    ensures ((a & 0xf0) >> 4) as int == a as int / 16
    ensures ((a & 0xc0) >> 6) as int == a as int / 64
  {}

  lemma LowBits(a: bv8)
    ensures ((a & 0x03) << 4) as int == (a as int % 4) * 16
    ensures ((a & 0x0f) << 2) as int == (a as int % 16) * 4
    ensures (a & 0x3f) as int == a as int % 64
  {}

  lemma AddSmall(x: bv8, y: bv8)
    requires x < 64 && y < 64
    ensures (x + y) as int == x as int + y as int
  {}

  lemma SecondSextet(a: bv8, b: bv8)
    ensures (((a & 0x03) << 4) + ((b & 0xf0) >> 4)) as int == (a as int % 4) * 16 + b as int / 16
  {
    HighBits(b);
    LowBits(a);
    var x, y := (a & 0x03) << 4, (b & 0xf0) >> 4;
    assert x < 64 && y < 64;
    AddSmall(x, y);
  }

  lemma ThirdSextet(b: bv8, c: bv8)
    ensures (((b & 0x0f) << 2) + ((c & 0xc0) >> 6)) as int == (b as int % 16) * 4 + c as int / 64
  {
    HighBits(c);
    LowBits(b);
    var x, y := (b & 0x0f) << 2, (c & 0xc0) >> 6;
    assert x < 64 && y < 64;
    AddSmall(x, y);
  }

  lemma Sextets(a: bv8, b: bv8, c: bv8)
    ensures var q := Split(a, b, c);
      q.c0 as int == a as int / 4 && q.c1 as int == (a as int % 4) * 16 + b as int / 16 &&
      q.c2 as int == (b as int % 16) * 4 + c as int / 64 && q.c3 as int == c as int % 64
  {
    HighBits(a);
    SecondSextet(a, b);
    ThirdSextet(b, c);
    LowBits(c);
  }

  lemma Regrouped(a: int, b: int, c: int)
    ensures a / 4 * 262144 + (a % 4 * 16 + b / 16) * 4096 + (b % 16 * 4 + c / 64) * 64 + c % 64 ==
            a * 65536 + b * 256 + c
  {}

  /** The four sextets are the digits in base 64 of the number whose digits in base 256 are
      the three octets. */
  lemma SplitIsBase64(a: bv8, b: bv8, c: bv8)
    ensures var q := Split(a, b, c);
      Number(q.c0 as int, q.c1 as int, q.c2 as int, q.c3 as int) == a as int * 65536 + b as int * 256 + c as int
  {
    hide Split;
    Sextets(a, b, c);
    Regrouped(a as int, b as int, c as int);
  }

  /** The number that four digits make in base 64. */
  ghost function Number(d0: int, d1: int, d2: int, d3: int): int {
    d0 * 262144 + d1 * 4096 + d2 * 64 + d3
  }

  /** The place of a character in the alphabet, -1 if it is none. */
  ghost function Digit(c: char): int {
    Find(ALPHABET, c)
  }

  ghost predicate AreDigits(s: string) {
    forall i :: 0 <= i < |s| ==> 0 <= Digit(s[i]) < 64
  }

  lemma FourDigits(a: bv8, b: bv8, c: bv8)
    ensures var f, q := Four(a, b, c), Split(a, b, c);
      Digit(f[0]) == q.c0 as int && Digit(f[1]) == q.c1 as int &&
      Digit(f[2]) == q.c2 as int && Digit(f[3]) == q.c3 as int
  {
    hide Find, Split;
    JoinSplit(a, b, c);
    var q := Split(a, b, c);
    FindsLetter(q.c0);
    FindsLetter(q.c1);
    FindsLetter(q.c2);
    FindsLetter(q.c3);
  }

  lemma FourIsBase64(a: bv8, b: bv8, c: bv8)
    ensures var f := Four(a, b, c);
      AreDigits(f) && Number(Digit(f[0]), Digit(f[1]), Digit(f[2]), Digit(f[3])) ==
      a as int * 65536 + b as int * 256 + c as int
  {
    hide Digit, Split, Four, Number;
    FourDigits(a, b, c);
    SplitIsBase64(a, b, c);
    SextetsFit(a, b, c);
  }

  lemma SextetsFit(a: bv8, b: bv8, c: bv8)
    ensures var q := Split(a, b, c);
      q.c0 as int < 64 && q.c1 as int < 64 && q.c2 as int < 64 && q.c3 as int < 64
  {
    JoinSplit(a, b, c);
    var q := Split(a, b, c);
    SmallInt(q.c0);
    SmallInt(q.c1);
    SmallInt(q.c2);
    SmallInt(q.c3);
  }

  lemma SmallInt(x: bv8)
    requires x < 64
    ensures x as int < 64
  {}

  lemma ZeroSextets(a: bv8, b: bv8)
    ensures Split(a, b, 0).c3 == 0 && Split(a, 0, 0).c2 == 0
  {}

  lemma ZeroInt(x: bv8)
    requires x == 0
    ensures x as int == 0
  {}

  /** Octets that are zero give digits that are zero. */
  lemma ZeroDigits(a: bv8, b: bv8)
    ensures Digit(Four(a, b, 0)[3]) == 0 && Digit(Four(a, 0, 0)[2]) == 0
  {
    hide Digit, Four, Split;
    FourDigits(a, b, 0);
    FourDigits(a, 0, 0);
    ZeroSextets(a, b);
    ZeroInt(Split(a, b, 0).c3);
    ZeroInt(Split(a, 0, 0).c2);
  }

  /** Group g of the code: four letters, which read in base 64 are the three octets read in base 256. */
  lemma {:induction false} CodeOfGroup(s: seq<bv8>, g: nat)
    requires 3 * g + 3 <= |s|
    ensures 4 * g + 4 <= |Encoded(s)|
    ensures var c := Encoded(s)[4 * g..4 * g + 4];
      AreDigits(c) && Number(Digit(c[0]), Digit(c[1]), Digit(c[2]), Digit(c[3])) ==
      s[3 * g] as int * 65536 + s[3 * g + 1] as int * 256 + s[3 * g + 2] as int
  {
    hide Four, Digit, Number, AreDigits;
    var f, rest := Four(s[0], s[1], s[2]), Encoded(s[3..]);
    assert Encoded(s) == f + rest;
    if g == 0 {
      FourIsBase64(s[0], s[1], s[2]);
      assert Encoded(s)[..4] == f;
    } else {
      CodeOfGroup(s[3..], g - 1);
      assert Encoded(s)[4 * g..4 * g + 4] == rest[4 * (g - 1)..4 * (g - 1) + 4];
    }
  }

  /** A last group c for one or two octets left over: two or three letters, which with zeros
      for the missing ones are these octets and zeros, then the padding. */
  ghost predicate CodesTail(c: string, left: seq<bv8>)
    requires 1 <= |left| <= 2
  {
    |c| == 4 && AreDigits(c[..|left| + 1]) && (forall i :: |left| < i < 4 ==> c[i] == '=') &&
    Number(Digit(c[0]), Digit(c[1]), if |left| == 2 then Digit(c[2]) else 0, 0) ==
    left[0] as int * 65536 + (if |left| == 2 then left[1] as int else 0) * 256
  }

  lemma OneLeft(a: bv8)
    ensures CodesTail(Four(a, 0, 0)[..2] + "==", [a])
  {
    hide Four, Digit, Number;
    FourIsBase64(a, 0, 0);
    ZeroDigits(a, 0);
  }

  lemma TwoLeft(a: bv8, b: bv8)
    ensures CodesTail(Four(a, b, 0)[..3] + "=", [a, b])
  {
    hide Four, Digit, Number;
    FourIsBase64(a, b, 0);
    ZeroDigits(a, b);
  }

  /** The code of whole groups followed by more is their code followed by that of the rest. */
  lemma {:induction false} EncodedInParts(whole: seq<bv8>, rest: seq<bv8>)
    requires |whole| % 3 == 0
    ensures Encoded(whole + rest) == Encoded(whole) + Encoded(rest)
  {
    hide Four;
    if whole == [] {
      assert whole + rest == rest && Encoded(whole) + Encoded(rest) == Encoded(rest);
    } else {
      assert (whole + rest)[3..] == whole[3..] + rest;
      EncodedInParts(whole[3..], rest);
    }
  }

  lemma CodeOfTail(whole: seq<bv8>, left: seq<bv8>)
    requires |whole| % 3 == 0 && 1 <= |left| <= 2
    ensures Encoded(whole + left) == Encoded(whole) + Encoded(left) && CodesTail(Encoded(left), left)
  {
    hide Four, CodesTail;
    EncodedInParts(whole, left);
    if |left| == 1 {
      OneLeft(left[0]);
      assert left == [left[0]];
    } else {
      TwoLeft(left[0], left[1]);
      assert left == [left[0], left[1]];
    }
  }

  // ---------- the loops ----------

  lemma EncodedGroup(a: bv8, b: bv8, c: bv8, rest: seq<bv8>)
    ensures Encoded([a, b, c] + rest) == Four(a, b, c) + Encoded(rest)
  {
    hide Four;
    assert ([a, b, c] + rest)[3..] == rest;
  }

  /** Taking one element over into the buffer leaves buffer and rest together the same. */
  lemma MoveOne<T>(buffer: seq<T>, s: seq<T>, k: nat)
    requires k < |s|
    ensures (buffer + [s[k]]) + s[k + 1..] == buffer + s[k..]
  {}

  method SplitInto(three: array<bv8>, four: array<bv8>)
    requires three.Length == 3 && four.Length == 4 && three != four
    modifies four
    ensures Quad(four[0], four[1], four[2], four[3]) == Split(three[0], three[1], three[2])
  {
    four[0] := (three[0] & 0xfc) >> 2;
    four[1] := ((three[0] & 0x03) << 4) + ((three[1] & 0xf0) >> 4);
    four[2] := ((three[1] & 0x0f) << 2) + ((three[2] & 0xc0) >> 6);
    four[3] := three[2] & 0x3f;
  }

  lemma FourLetters(four: seq<bv8>, a: bv8, b: bv8, c: bv8)
    requires |four| == 4 && Quad(four[0], four[1], four[2], four[3]) == Split(a, b, c)
    ensures forall j :: 0 <= j < 4 ==> four[j] < 64 && ALPHABET[four[j] as int] == Four(a, b, c)[j]
  {
    hide Split;
    JoinSplit(a, b, c);
  }

  /** Appends the letters of the first count sextets. */
  method AppendLetters(ret: string, four: array<bv8>, count: nat, ghost a: bv8, ghost b: bv8, ghost c: bv8)
    returns (s: string)
    requires four.Length == 4 && count <= 4 && Quad(four[0], four[1], four[2], four[3]) == Split(a, b, c)
    ensures s == ret + Four(a, b, c)[..count]
  {
    hide Split, Four;
    FourLetters(four[..], a, b, c);
    s := ret;
    for j := 0 to count
      invariant s == ret + Four(a, b, c)[..j]
    {
      assert four[..][j] == four[j];
      s := s + [ALPHABET[four[j] as int]];
    }
  }

  function Padding(n: nat): string {
    seq(n, _ => '=')
  }

  lemma EncodedNothing()
    ensures Encoded([]) == ""
  {}

  lemma EncodedTail(t: seq<bv8>)
    requires 1 <= |t| <= 2
    ensures Encoded(t) == Four(t[0], if |t| > 1 then t[1] else 0, 0)[..|t| + 1] + Padding(3 - |t|)
  {
    hide Four;
    assert Padding(1) == "=" && Padding(2) == "==";
  }

  /** What follows the loop: a last group of i < 3 octets, filled up with zeros. */
  method EncodeTail(start: string, charArray3: array<bv8>, charArray4: array<bv8>, count: nat) returns (ret: string)
    requires charArray3.Length == 3 && charArray4.Length == 4 && charArray3 != charArray4 && count < 3
    modifies charArray3, charArray4
    ensures ret == start + Encoded(old(charArray3[..count]))
  {
    hide Four, Encoded, Split;
    ghost var tail := charArray3[..count];
    ret := start;
    var i := count;
    if i != 0 {
      EncodedTail(tail);
      for j := i to 3
        invariant charArray3[..count] == tail && forall m :: count <= m < j ==> charArray3[m] == 0
      {
        charArray3[j] := 0;
      }
      assert charArray3[0] == tail[0] && (count == 2 ==> charArray3[1] == tail[1]);
      SplitInto(charArray3, charArray4);
      ret := AppendLetters(ret, charArray4, i + 1, charArray3[0], charArray3[1], charArray3[2]);
      ghost var letters := ret;
      while i < 3
        invariant count <= i <= 3 && ret == letters + Padding(i - count)
      {
        i := i + 1;
        ret := ret + "=";
      }
    } else {
      EncodedNothing();
    }
  }

  method Base64Encode(input: seq<bv8>) returns (ret: string)
    ensures ret == Encoded(input)
  {
    hide Four, Encoded, Split;
    ret := "";
    var i := 0;
    var charArray3, charArray4 := new bv8[3], new bv8[4];
    assert charArray3[..0] + input[0..] == input;
    for k := 0 to |input|
      invariant 0 <= i < 3
      invariant ret + Encoded(charArray3[..i] + input[k..]) == Encoded(input)
    {
      MoveOne(charArray3[..i], input, k);
      ghost var buffered := charArray3[..i] + [input[k]];
      charArray3[i] := input[k];
      i := i + 1;
      assert charArray3[..i] == buffered;
      if i == 3 {
        assert buffered == [charArray3[0], charArray3[1], charArray3[2]];
        EncodedGroup(charArray3[0], charArray3[1], charArray3[2], input[k + 1..]);
        SplitInto(charArray3, charArray4);
        ret := AppendLetters(ret, charArray4, 4, charArray3[0], charArray3[1], charArray3[2]);
        i := 0;
        assert charArray3[..i] + input[k + 1..] == input[k + 1..];
      }
    }
    ghost var tail := charArray3[..i];
    assert tail + input[|input|..] == tail;
    ret := EncodeTail(ret, charArray3, charArray4, i);
  }

  // the decoder

  lemma DecodedGroup(a: char, b: char, c: char, d: char, rest: string)
    requires Accepted(a) && Accepted(b) && Accepted(c) && Accepted(d)
    ensures Decoded([a, b, c, d] + rest) == Three(Lookup(a), Lookup(b), Lookup(c), Lookup(d)) + Decoded(rest)
  {
    hide Lookup, Accepted, Three;
    var s := [a, b, c, d] + rest;
    assert s[4..] == rest && Leading(s) == 4;
  }

  /** An incomplete group, with nothing after it that is accepted. */
  lemma DecodedEnd(group: string, rest: string)
    requires |group| < 4 && (forall i :: 0 <= i < |group| ==> Accepted(group[i])) && (rest == "" || !Accepted(rest[0]))
    ensures Decoded(group + rest) == DecodeTail(group)
  {
    hide Lookup, Accepted, DecodeTail;
    var s := group + rest;
    assert Leading(s) == |group| && s[..|group|] == group;
  }

  method JoinInto(four: array<bv8>, three: array<bv8>)
    requires three.Length == 3 && four.Length == 4 && three != four
    modifies three
    ensures three[..] == Three(four[0], four[1], four[2], four[3])
  {
    three[0] := (four[0] << 2) + ((four[1] & 0x30) >> 4);
    three[1] := ((four[1] & 0xf) << 4) + ((four[2] & 0x3c) >> 2);
    three[2] := ((four[2] & 0x3) << 6) + four[3];
  }

  /** Replaces the characters by what they stand for. */
  method LookupAll(letters: string, four: array<bv8>)
    requires |letters| == four.Length == 4
    modifies four
    ensures forall k :: 0 <= k < 4 ==> four[k] == Lookup(letters[k])
  {
    hide Lookup;
    for k := 0 to 4
      invariant forall m :: 0 <= m < k ==> four[m] == Lookup(letters[m])
    {
      var place := Lookup(letters[k]);
      four[k] := place;
      assert four[k] == place;
    }
  }

  /** The conversion of one group, complete or filled up. */
  method DecodeGroup(letters: string, charArray4: array<bv8>, charArray3: array<bv8>)
    requires |letters| == charArray4.Length == 4 && charArray3.Length == 3 && charArray3 != charArray4
    modifies charArray4, charArray3
    ensures charArray3[..] == Three(Lookup(letters[0]), Lookup(letters[1]), Lookup(letters[2]), Lookup(letters[3]))
  {
    hide Lookup, Three;
    LookupAll(letters, charArray4);
    JoinInto(charArray4, charArray3);
  }

  method Base64Decode(encodedString: string) returns (ret: seq<bv8>)
    ensures ret == Decoded(encodedString)
  {
    hide Lookup, Accepted, Decoded, DecodeTail, Three;
    var i, at := 0, 0;
    var letters, charArray4, charArray3 := new char[4], new bv8[4], new bv8[3];
    ret := [];
    assert letters[..0] + encodedString[0..] == encodedString;
    while at < |encodedString| && Accepted(encodedString[at])
      invariant 0 <= i < 4 && at <= |encodedString|
      invariant forall k :: 0 <= k < i ==> Accepted(letters[k])
      invariant ret + Decoded(letters[..i] + encodedString[at..]) == Decoded(encodedString)
    {
      MoveOne(letters[..i], encodedString, at);
      ghost var buffered := letters[..i] + [encodedString[at]];
      letters[i] := encodedString[at];
      i := i + 1;
      at := at + 1;
      assert letters[..i] == buffered;
      if i == 4 {
        assert buffered == [letters[0], letters[1], letters[2], letters[3]];
        DecodedGroup(letters[0], letters[1], letters[2], letters[3], encodedString[at..]);
        DecodeGroup(letters[..], charArray4, charArray3);
        ret := ret + charArray3[..];
        i := 0;
        assert letters[..i] + encodedString[at..] == encodedString[at..];
      }
    }
    DecodedEnd(letters[..i], encodedString[at..]);
    ret := DecodeRest(ret, letters, charArray4, charArray3, i);
  }

  lemma TailOf(group: string, letters: string)
    requires 1 <= |group| < 4 == |letters| && letters[..|group|] == group
    requires forall m :: |group| <= m < 4 ==> letters[m] == '\0'
    ensures DecodeTail(group) ==
            Three(Lookup(letters[0]), Lookup(letters[1]), Lookup(letters[2]), Lookup(letters[3]))[..|group| - 1]
  {
    hide Lookup, Three;
    assert forall m :: 0 <= m < |group| ==> letters[m] == group[m];
  }

  lemma TailOfNothing()
    ensures DecodeTail("") == []
  {}

  /** What follows the loop: the characters of an incomplete group. */
  method DecodeRest(start: seq<bv8>, letters: array<char>, charArray4: array<bv8>, charArray3: array<bv8>, i: nat)
    returns (ret: seq<bv8>)
    requires letters.Length == charArray4.Length == 4 && charArray3.Length == 3 && charArray3 != charArray4 && i < 4
    modifies letters, charArray4, charArray3
    ensures ret == start + DecodeTail(old(letters[..i]))
  {
    hide Lookup, Three, DecodeTail;
    ghost var group := letters[..i];
    ret := start;
    if i == 0 {
      TailOfNothing();
    } else {
      for j := i to 4
        invariant letters[..i] == group && forall m :: i <= m < j ==> letters[m] == '\0'
      {
        letters[j] := '\0';
      }
      TailOf(group, letters[..]);
      DecodeGroup(letters[..], charArray4, charArray3);
      ghost var octets := charArray3[..];
      for j := 0 to i - 1
        invariant ret == start + octets[..j]
      {
        assert charArray3[j] == octets[j];
        ret := ret + [charArray3[j]];
      }
    }
  }
}
