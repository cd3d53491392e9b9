/** The %d and %u conversion loop of stb_sprintf: eight digits at a time, in pairs or with separators. */
module SprintfDecimal {
  import opened PowersOfTwo

  /** STBSP__NUMSZ, size of the conversion buffer that is filled from its end */
  const NUM_SIZE: nat := 512

  const CHUNK: nat := 100000000

  function Digit(d: nat): (c: char)
    requires d < 10
    ensures '0' <= c <= '9' && c as int - '0' as int == d
  {
    (d + '0' as int) as char
  }

  /** The canonical decimal representation. */
  function Decimal(n: nat): (s: seq<char>)
    ensures |s| > 0
  {
    if n < 10 then [Digit(n)] else Decimal(n / 10) + [Digit(n % 10)]
  }

  /** What a string of digits denotes. */
  function Value(s: seq<char>): nat {
    if s == [] then 0 else
      var c := s[|s| - 1];
      10 * Value(s[..|s| - 1]) + if '0' <= c <= '9' then c as int - '0' as int else 0
  }

  lemma {:induction false} DecimalIsCanonical(n: nat)
    ensures Value(Decimal(n)) == n
    ensures forall i :: 0 <= i < |Decimal(n)| ==> '0' <= Decimal(n)[i] <= '9'
    ensures Decimal(n)[0] == '0' <==> n == 0
    ensures n == 0 ==> Decimal(n) == ['0']
  {
    var s := Decimal(n);
    if n >= 10 {
      DecimalIsCanonical(n / 10);
      assert s[..|s| - 1] == Decimal(n / 10);
    } else {
      assert s[..|s| - 1] == [];
    }
  }

  /** Exactly k digits, with leading zeros. */
  function Fixed(n: nat, k: nat): (s: seq<char>)
    ensures |s| == k
  {
    if k == 0 then [] else Fixed(n / 10, k - 1) + [Digit(n % 10)]
  }

  /** n without its last k digits. */
  function Above(n: nat, k: nat): nat {
    if k == 0 then n else Above(n / 10, k - 1)
  }

  lemma {:induction false} AboveNext(n: nat, k: nat)
    ensures Above(n, k + 1) == Above(n, k) / 10
  {
    if k > 0 {
      AboveNext(n / 10, k - 1);
    }
  }

  /** Digit k from the right goes in front of the k digits after it. */
  lemma {:induction false} FixedFront(n: nat, k: nat)
    ensures Fixed(n, k + 1) == [Digit(Above(n, k) % 10)] + Fixed(n, k)
  {
    if k > 0 {
      FixedFront(n / 10, k - 1);
    } else {
      assert Fixed(n / 10, 0) == [];
    }
  }

  /** The last k digits split off, as long as something is left. */
  lemma {:induction false} DecimalSplits(n: nat, k: nat)
    requires Above(n, k) > 0
    ensures Decimal(n) == Decimal(Above(n, k)) + Fixed(n, k)
  {
    if k > 0 {
      if n < 10 {
        AboveZero(k - 1);
      } else {
        DecimalSplits(n / 10, k - 1);
      }
    }
  }

  lemma {:induction false} AboveZero(k: nat)
    ensures Above(0, k) == 0
  {
    if k > 0 {
      AboveZero(k - 1);
    }
  }

  lemma AbovePositive(n: nat, k: nat)
    requires Above(n, k) > 0
    ensures n > 0
  {
    AboveZero(k);
  }

  /** All digits: k of them, the first not a zero. */
  lemma {:induction false} DecimalIsFixed(n: nat, k: nat)
    requires Above(n, k) == 0 && k > 0 && (k == 1 || Above(n, k - 1) > 0)
    ensures Decimal(n) == Fixed(n, k)
  {
    AboveNext(n, k - 1);
    FixedFront(n, k - 1);
    if k > 1 {
      DecimalSplits(n, k - 1);
    }
  }

  // ---------- Grouping ----------

  /** A separator before every third digit counted from the right, except at the front. */
  function Grouped(s: seq<char>, comma: char): (r: seq<char>)
    ensures |s| <= |r| <= 2 * |s|
  {
    if |s| <= 3 then s else Grouped(s[..|s| - 3], comma) + [comma] + s[|s| - 3..]
  }

  /** Digits of n that follow the last separator when counting from the right: 1, 2, 3, 1, 2, 3, ... */
  function LastGroup(n: nat): (l: nat)
    ensures l <= 3 && (l == 0 <==> n == 0)
  {
    if n == 0 then 0 else if LastGroup(n - 1) == 3 then 1 else LastGroup(n - 1) + 1
  }

  /** One more digit in front needs a separator exactly when the group after it is full. */
  lemma {:induction false} GroupedFront(c: char, s: seq<char>, comma: char)
    ensures Grouped([c] + s, comma) ==
      if LastGroup(|s|) == 3 then [c, comma] + Grouped(s, comma) else [c] + Grouped(s, comma)
  {
    var t := [c] + s;
    if |s| > 3 {
      GroupedFront(c, s[..|s| - 3], comma);
      assert t[..|t| - 3] == [c] + s[..|s| - 3];
      ThreeMore(|s|);
    } else if |s| == 3 {
      assert t[..1] == [c] && t[1..] == s;
      ThreeMore(3);
    } else if |s| == 2 {
      assert LastGroup(1) == 1 && LastGroup(2) == 2;
    }
  }

  lemma {:induction false} ThreeMore(n: nat)
    requires n >= 3
    ensures LastGroup(n) == if n == 3 then 3 else LastGroup(n - 3)
  {
    if n > 3 {
      ThreeMore(n - 1);
      if n == 4 {
        assert LastGroup(1) == 1;
      }
    } else {
      assert LastGroup(1) == 1 && LastGroup(2) == 2;
    }
  }

  function Without(s: seq<char>, comma: char): seq<char> {
    if s == [] then [] else
      var rest := Without(s[..|s| - 1], comma);
      if s[|s| - 1] == comma then rest else rest + [s[|s| - 1]]
  }

  lemma {:induction false} WithoutAppends(s: seq<char>, t: seq<char>, comma: char)
    ensures Without(s + t, comma) == Without(s, comma) + Without(t, comma)
  {
    if t == [] {
      assert s + t == s;
    } else {
      WithoutAppends(s, t[..|t| - 1], comma);
      assert (s + t)[..|s + t| - 1] == s + t[..|t| - 1];
    }
  }

  lemma {:induction false} WithoutKeeps(s: seq<char>, comma: char)
    requires comma !in s
    ensures Without(s, comma) == s
  {
    if s != [] {
      WithoutKeeps(s[..|s| - 1], comma);
    }
  }

  /** A separator where the distance from the right end says so. */
  predicate SeparatedAt(r: seq<char>, comma: char, i: nat)
    requires i < |r|
  {
    r[i] == comma <==> (|r| - 1 - i) % 4 == 3
  }

  lemma OneMoreGroup(head: seq<char>, last: seq<char>, comma: char)
    requires |last| == 3 && comma !in last
    requires forall i :: 0 <= i < |head| ==> SeparatedAt(head, comma, i)
    ensures var r := head + [comma] + last; forall i :: 0 <= i < |r| ==> SeparatedAt(r, comma, i)
  {
    var r := head + [comma] + last;
    forall i | 0 <= i < |r|
      ensures SeparatedAt(r, comma, i)
    {
      if i < |head| {
        assert SeparatedAt(head, comma, i);
        assert |r| - 1 - i == (|head| - 1 - i) + 4;
      } else if i > |head| {
        assert r[i] in last;
      }
    }
  }

  /** Without the separators the digits are what they were, and a separator never comes first. */
  lemma {:induction false} GroupingOnlyAdds(s: seq<char>, comma: char)
    requires comma !in s
    ensures Without(Grouped(s, comma), comma) == s
    ensures s != [] ==> Grouped(s, comma)[0] == s[0]
  {
    if |s| > 3 {
      var front, last := s[..|s| - 3], s[|s| - 3..];
      var head := Grouped(front, comma);
      GroupingOnlyAdds(front, comma);
      WithoutAppends(head + [comma], last, comma);
      WithoutAppends(head, [comma], comma);
      WithoutKeeps(last, comma);
      assert Without([comma], comma) == [];
    } else {
      WithoutKeeps(s, comma);
    }
  }

  /** Separators stand before every third digit from the right and nowhere else. */
  lemma {:induction false} GroupingPlaces(s: seq<char>, comma: char)
    requires comma !in s
    ensures forall i :: 0 <= i < |Grouped(s, comma)| ==> SeparatedAt(Grouped(s, comma), comma, i)
  {
    if |s| > 3 {
      var front, last := s[..|s| - 3], s[|s| - 3..];
      GroupingPlaces(front, comma);
      OneMoreGroup(Grouped(front, comma), last, comma);
    }
  }

  // ---------- Chunks of eight digits ----------

  function Ten(k: nat): (t: nat)
    ensures t > 0
  {
    if k == 0 then 1 else 10 * Ten(k - 1)
  }

  /** Dividing by ten and then by t. */
  lemma DivTwice(n: nat, t: nat)
    requires t > 0
    ensures n / 10 / t == n / (10 * t)
  {
    var a, low := n / 10, n % 10;
    DivIs(a, t);
    var b, r := a / t, a % t;
    MulShuffle(b, 10, t);
    DivModUnique(n, 10 * t, b, 10 * r + low);
  }

  lemma DivIs(a: nat, t: nat)
    requires t > 0
    ensures a == a / t * t + a % t && 0 <= a % t < t
  {
  }

  lemma {:induction false} AboveIsDiv(n: nat, k: nat)
    ensures Above(n, k) == n / Ten(k)
  {
    if k > 0 {
      AboveIsDiv(n / 10, k - 1);
      DivTwice(n, Ten(k - 1));
    }
  }

  lemma {:induction false} FixedIgnoresAbove(n: nat, m: nat, k: nat)
    ensures Fixed(m * Ten(k) + n, k) == Fixed(n, k)
  {
    if k > 0 {
      FixedIgnoresAbove(n / 10, m, k - 1);
      var above := m * Ten(k - 1);
      MulShuffle(m, 10, Ten(k - 1));
      assert (10 * above + n) / 10 == above + n / 10 && (10 * above + n) % 10 == n % 10;
    }
  }

  lemma TenToTheEight()
    ensures Ten(8) == CHUNK
  {
    assert Ten(2) == 100;
    assert Ten(4) == 10000;
    assert Ten(6) == 1000000;
  }

  /** The digits of a chunk stand for the last eight digits of what is left. */
  lemma ChunkSplits(n64: nat)
    requires n64 >= CHUNK
    ensures Decimal(n64) == Decimal(n64 / CHUNK) + Fixed(n64 % CHUNK, 8)
    ensures n64 / CHUNK > 0
  {
    hide Ten, Decimal, Fixed, Above;
    TenToTheEight();
    DivIs(n64, CHUNK);
    AboveIsDiv(n64, 8);
    DecimalSplits(n64, 8);
    FixedIgnoresAbove(n64 % CHUNK, n64 / CHUNK, 8);
  }

  lemma ChunkIsShort(n: nat)
    requires n < CHUNK
    ensures Above(n, 8) == 0
  {
    TenToTheEight();
    AboveIsDiv(n, 8);
  }

  // ---------- The conversion buffer ----------

  /** What stands in the buffer for the digits so far; l counts the digits since the last separator, and a separator
      may stand alone in front. */
  ghost predicate Shows(text: seq<char>, digits: seq<char>, triplet: bool, comma: char, l: nat) {
    if !triplet then text == digits
    else
      && (l == LastGroup(|digits|) || (l == 0 && LastGroup(|digits|) == 3))
      && text == (if l == 0 && digits != [] then [comma] else []) + Grouped(digits, comma)
  }

  /** The digits so far: d of the chunk n0, then those of the chunks before it. */
  ghost predicate InChunk(num: array<char>, s: nat, triplet: bool, comma: char, l: nat, n0: nat, d: nat,
                          tail: seq<char>)
    reads num
  {
    s <= num.Length == NUM_SIZE && d <= 8 && |tail| <= 16 && Shows(num[s..], Fixed(n0, d) + tail, triplet, comma, l)
  }

  lemma RoomInFront(text: seq<char>, digits: seq<char>, triplet: bool, comma: char, l: nat)
    requires Shows(text, digits, triplet, comma, l)
    ensures |text| <= 2 * |digits| + 1
  {
  }

  /** *--s = c */
  method Push(num: array<char>, s0: nat, c: char) returns (s: nat)
    requires 0 < s0 <= num.Length
    modifies num
    ensures s == s0 - 1 && num[s..] == [c] + old(num[s0..])
  {
    s := s0 - 1;
    num[s] := c;
  }

  /** One digit of the chunk, or the separator that has to come before it. */
  method PushDigit(num: array<char>, s0: nat, triplet: bool, comma: char, l0: nat, c: char,
                   ghost n0: nat, ghost d: nat, ghost tail: seq<char>) returns (s: nat, l: nat, done: bool)
    requires InChunk(num, s0, triplet, comma, l0, n0, d, tail) && d < 8 && c == Digit(Above(n0, d) % 10)
    modifies num
    ensures InChunk(num, s, triplet, comma, l, n0, if done then d + 1 else d, tail)
    ensures if done then triplet ==> l > 0 else triplet && l0 == 3 && l == 0
    ensures s == s0 - 1
  {
    hide Grouped, Fixed;
    ghost var digits := Fixed(n0, d) + tail;
    RoomInFront(num[s0..], digits, triplet, comma, l0);
    FixedFront(n0, d);
    GroupedFront(c, digits, comma);
    assert Fixed(n0, d + 1) + tail == [c] + digits;
    if triplet && l0 == 3 {
      l, done := 0, false;
      s := Push(num, s0, comma);
    } else {
      l, done := if triplet then l0 + 1 else l0, true;
      s := Push(num, s0, c);
    }
  }

  lemma AboveMonotone(n: nat, d: nat)
    ensures Above(n, d) == 0 ==> Above(n, d + 1) == 0
    ensures Above(n, d + 1) == Above(n, d) / 10
  {
    AboveNext(n, d);
  }

  lemma PairOf(n: nat)
    ensures n % 100 % 10 == n % 10 && n % 100 / 10 == n / 10 % 10 && n / 100 == n / 10 / 10
  {
  }

  /** One entry of the table of digit pairs. */
  method PushPair(num: array<char>, s0: nat, n: nat, comma: char, ghost n0: nat, ghost d: nat, ghost tail: seq<char>)
    returns (s: nat)
    requires InChunk(num, s0, false, comma, 0, n0, d, tail) && d <= 6 && n == Above(n0, d)
    modifies num
    ensures InChunk(num, s, false, comma, 0, n0, d + 2, tail) && s + 2 == s0
    ensures n / 100 == Above(n0, d + 2)
  {
    hide Fixed, Shows;
    AboveMonotone(n0, d);
    AboveMonotone(n0, d + 1);
    PairOf(n);
    var pair := n % 100;
    var l, done;
    s, l, done := PushDigit(num, s0, false, comma, 0, Digit(pair % 10), n0, d, tail);
    LIsFree(num[s..], Fixed(n0, d + 1) + tail, comma, l);
    s, l, done := PushDigit(num, s, false, comma, 0, Digit(pair / 10), n0, d + 1, tail);
    LIsFree(num[s..], Fixed(n0, d + 2) + tail, comma, l);
  }

  lemma LIsFree(text: seq<char>, digits: seq<char>, comma: char, l: nat)
    requires Shows(text, digits, false, comma, l)
    ensures Shows(text, digits, false, comma, 0)
  {
  }

  /** The digit pairs of a chunk, two at a time, at least one pair. */
  method PushPairs(num: array<char>, s0: nat, n0: nat, comma: char, ghost tail: seq<char>)
    returns (s: nat, n: nat, ghost d: nat)
    requires InChunk(num, s0, false, comma, 0, n0, 0, tail) && n0 < CHUNK
    modifies num
    ensures InChunk(num, s, false, comma, 0, n0, d, tail) && s + d == s0
    ensures n == Above(n0, d) == 0 && 2 <= d && (d == 2 || Above(n0, d - 2) > 0)
  {
    hide Fixed, Shows;
    s := PushPair(num, s0, n0, comma, n0, 0, tail);
    n, d := n0 / 100, 2;
    ChunkIsShort(n0);
    while n > 0
      invariant InChunk(num, s, false, comma, 0, n0, d, tail) && s + d == s0 && n == Above(n0, d)
      invariant d in {2, 4, 6, 8} && (d == 2 || Above(n0, d - 2) > 0)
      decreases 8 - d
    {
      s := PushPair(num, s, n, comma, n0, d, tail);
      n, d := n / 100, d + 2;
    }
  }

  /** The loop over single digits; each separator moves the chunk's end down by one. */
  method PushDigits(num: array<char>, s0: nat, ghost n0: nat, start: nat, o0: int, triplet: bool, comma: char, l0: nat,
                    ghost d0: nat, ghost tail: seq<char>) returns (s: nat, o: int, l: nat, ghost d: nat)
    requires InChunk(num, s0, triplet, comma, l0, n0, d0, tail) && n0 < CHUNK && start == Above(n0, d0)
    requires s0 - o0 == 8 - d0
    modifies num
    ensures InChunk(num, s, triplet, comma, l, n0, d, tail) && s - o == 8 - d
    ensures Above(n0, d) == 0 && d >= d0 && (d == d0 || Above(n0, d - 1) > 0)
    ensures start == 0 ==> s == s0 && l == l0 && d == d0
    ensures triplet && d > d0 ==> l > 0
  {
    hide Fixed, Shows;
    s, o, l, d := s0, o0, l0, d0;
    var n := start;
    ChunkIsShort(n0);
    ChunkStays(n0, d);
    while n > 0
      invariant InChunk(num, s, triplet, comma, l, n0, d, tail) && s - o == 8 - d && d0 <= d
      invariant n == Above(n0, d) && (d == d0 || Above(n0, d - 1) > 0)
      invariant d == 8 ==> n == 0
      invariant start == 0 ==> s == s0 && l == l0 && d == d0
      invariant triplet && d > d0 && n == 0 ==> l > 0
      decreases n, if triplet && l == 3 then 1 else 0
    {
      AboveMonotone(n0, d);
      var done;
      s, l, done := PushDigit(num, s, triplet, comma, l, Digit(n % 10), n0, d, tail);
      if done {
        n := n / 10;
        d := d + 1;
      } else {
        o := o - 1;
      }
    }
  }

  lemma ChunkStays(n0: nat, d: nat)
    requires n0 < CHUNK && d <= 8
    ensures d == 8 ==> Above(n0, d) == 0
  {
    ChunkIsShort(n0);
  }

  /** Zeros up to the end of a chunk that is not the last. */
  method PushZeros(num: array<char>, s0: nat, ghost n0: nat, o0: int, triplet: bool, comma: char, l0: nat,
                   ghost d0: nat, ghost tail: seq<char>) returns (s: nat, l: nat)
    requires InChunk(num, s0, triplet, comma, l0, n0, d0, tail) && Above(n0, d0) == 0 && s0 - o0 == 8 - d0
    modifies num
    ensures InChunk(num, s, triplet, comma, l, n0, 8, tail)
  {
    hide Fixed, Shows;
    var o := o0;
    ghost var d := d0;
    s, l := s0, l0;
    while s != o
      invariant InChunk(num, s, triplet, comma, l, n0, d, tail) && s - o == 8 - d && Above(n0, d) == 0
      decreases 8 - d, if triplet && l == 3 then 1 else 0
    {
      AboveMonotone(n0, d);
      var done;
      s, l, done := PushDigit(num, s, triplet, comma, l, '0', n0, d, tail);
      if done {
        d := d + 1;
      } else {
        o := o - 1;
      }
    }
  }

  /** The first chunk may have got one zero too many, never more. */
  lemma PairsOvershoot(n0: nat, d: nat)
    requires Above(n0, d) == 0 && 2 <= d && (d == 2 || Above(n0, d - 2) > 0)
    ensures if Fixed(n0, d)[0] == '0' then Fixed(n0, d) == ['0'] + Decimal(n0) else Fixed(n0, d) == Decimal(n0)
  {
    AboveNext(n0, d - 1);
    AboveNext(n0, d - 2);
    FixedFront(n0, d - 1);
    if Above(n0, d - 1) == 0 {
      DecimalIsFixed(n0, d - 1);
    } else {
      DecimalIsFixed(n0, d);
    }
  }

  lemma {:induction false} GroupedFirst(s: seq<char>, comma: char)
    requires s != []
    ensures Grouped(s, comma)[0] == s[0]
  {
    if |s| > 3 {
      GroupedFirst(s[..|s| - 3], comma);
    }
  }

  /** What is left of a 64-bit number after c chunks. */
  predicate LeftAfter(n64: nat, c: nat) {
    if c == 0 then n64 < 0x1_0000_0000_0000_0000
    else if c == 1 then n64 < 200000000000
    else c == 2 && n64 < 2000
  }

  lemma LeftShrinks(n64: nat, c: nat)
    requires LeftAfter(n64, c) && n64 >= CHUNK
    ensures LeftAfter(n64 / CHUNK, c + 1)
  {
  }

  /** All that is known between two chunks. */
  ghost predicate Converting(num: array<char>, s: nat, v: nat, n64: nat, triplet: bool, comma: char, l: nat,
                             c: nat, tail: seq<char>)
    reads num
  {
    && s <= num.Length == NUM_SIZE && |tail| == 8 * c && LeftAfter(n64, c) && (c > 0 ==> n64 > 0)
    && Decimal(v) == Decimal(n64) + tail && Shows(num[s..], tail, triplet, comma, l)
  }

  /** The conversion: the canonical decimal digits of a 64-bit magnitude, with separators when asked for. */
  method ConvertDecimal(num: array<char>, v: nat, triplet: bool, comma: char) returns (s: nat)
    requires num.Length == NUM_SIZE && v < 0x1_0000_0000_0000_0000
    modifies num
    ensures s <= NUM_SIZE && num[s..] == if triplet then Grouped(Decimal(v), comma) else Decimal(v)
  {
    hide Fixed, Shows, Grouped, Decimal, LeftAfter;
    var n64: nat, l: nat := v, 0;
    s := NUM_SIZE;
    ghost var c: nat, tail := 0, [];
    Beginning(num[s..], v, triplet, comma);
    while true
      invariant Converting(num, s, v, n64, triplet, comma, l, c, tail)
      decreases n64
    {
      RoomInFront(num[s..], tail, triplet, comma, l);
      ChunkCount(n64, c);
      var o := s - 8;
      assert tail != [] ==> n64 > 0 by {
        assert tail != [] ==> |tail| > 0;
      }
      var n: nat;
      if n64 >= CHUNK {
        ChunkSplits(n64);
        LeftShrinks(n64, c);
        n := n64 % CHUNK;
        n64 := n64 / CHUNK;
      } else {
        n := n64;
        n64 := 0;
      }
      ghost var n0 := n;
      ghost var d := 0;
      ChunkBegins(num[s..], n0, tail, triplet, comma, l);
      if !triplet {
        LIsFree(num[s..], Fixed(n0, 0) + tail, comma, l);
        l := 0;
        s, n, d := PushPairs(num, s, n, comma, tail);
      }
      s, o, l, d := PushDigits(num, s, n0, n, o, triplet, comma, l, d, tail);
      if n64 == 0 {
        if triplet {
          LastDigits(num[s..], v, n0, d, tail, comma, l);
        } else {
          LastPairs(num[s..], v, n0, d, tail, comma, l);
        }
        if s != NUM_SIZE && num[s] == '0' {
          s := s + 1;
        }
        break;
      }
      s, l := PushZeros(num, s, n0, o, triplet, comma, l, d, tail);
      ChunkEnds(v, n64, n0, tail);
      c, tail := c + 1, Fixed(n0, 8) + tail;
    }
    if s == NUM_SIZE {
      s := Push(num, s, '0');
    }
  }

  lemma ChunkCount(n64: nat, c: nat)
    requires LeftAfter(n64, c)
    ensures c <= 2
  {
  }

  lemma ChunkEnds(v: nat, n64: nat, n0: nat, tail: seq<char>)
    requires Decimal(v) == Decimal(n64) + Fixed(n0, 8) + tail
    ensures Decimal(v) == Decimal(n64) + (Fixed(n0, 8) + tail)
  {
  }

  /** The last chunk completes the number. */
  lemma LastPairs(text: seq<char>, v: nat, n0: nat, d: nat, tail: seq<char>, comma: char, l: nat)
    requires Decimal(v) == Decimal(n0) + tail && Shows(text, Fixed(n0, d) + tail, false, comma, l)
    requires Above(n0, d) == 0 && 2 <= d && (d == 2 || Above(n0, d - 2) > 0)
    ensures text != [] && (if text[0] == '0' then text[1..] else text) == Decimal(v)
  {
    hide Decimal, Fixed, Above, Grouped;
    PairsOvershoot(n0, d);
    assert text[0] == Fixed(n0, d)[0];
  }

  lemma LastDigits(text: seq<char>, v: nat, n0: nat, d: nat, tail: seq<char>, comma: char, l: nat)
    requires Decimal(v) == Decimal(n0) + tail && Shows(text, Fixed(n0, d) + tail, true, comma, l)
    requires Above(n0, d) == 0 && (tail != [] ==> n0 > 0) && (d > 0 ==> l > 0 && Above(n0, d - 1) > 0)
    ensures text != [] ==> text[0] != '0' && text == Grouped(Decimal(v), comma)
    ensures text == [] ==> Grouped(Decimal(v), comma) == ['0']
  {
    if d > 0 {
      hide Decimal, Fixed, Above, Grouped;
      DecimalIsFixed(n0, d);
      AbovePositive(n0, d - 1);
      DecimalIsCanonical(n0);
      GroupedFirst(Decimal(v), comma);
      assert text == Grouped(Decimal(v), comma);
    } else {
      assert n0 == 0 && text == [];
      DecimalIsCanonical(0);
    }
  }

  lemma Beginning(text: seq<char>, v: nat, triplet: bool, comma: char)
    requires text == [] && v < 0x1_0000_0000_0000_0000
    ensures Shows(text, [], triplet, comma, 0) && LeftAfter(v, 0) && Decimal(v) == Decimal(v) + []
  {
  }

  lemma ChunkBegins(text: seq<char>, n0: nat, tail: seq<char>, triplet: bool, comma: char, l: nat)
    requires Shows(text, tail, triplet, comma, l)
    ensures Shows(text, Fixed(n0, 0) + tail, triplet, comma, l) && Above(n0, 0) == n0
  {
    assert Fixed(n0, 0) + tail == tail;
  }
}
