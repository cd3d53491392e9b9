/** OouraFFT::bitrv2 of fft_consolver/AudioFFT: bit reversal of complex pairs in place. */
module BitReversal {
  import opened PowersOfTwo
  import opened Words

  /** Complex number i of an interleaved array. */
  function Pair(s: seq<real>, i: nat): (real, real)
    requires 2 * i + 1 < |s|
  {
    (s[2 * i], s[2 * i + 1])
  }

  /** s with the first 2^e samples, taken as pairs, in bit-reversed order. */
  function BitReversed(s: seq<real>, e: nat): (r: seq<real>)
    requires e > 0 && Pow2(e) <= |s|
    ensures |r| == |s|
  {
    seq(|s|, x requires 0 <= x < |s| =>
      if x < Pow2(e) then RevBound(x / 2, e - 1); s[2 * Rev(x / 2, e - 1) + x % 2] else s[x])
  }

  /** Sample x comes from sample y and y from x. */
  lemma ComesFrom(x: nat, e: nat)
    requires e > 0 && x < Pow2(e)
    ensures var y := 2 * Rev(x / 2, e - 1) + x % 2;
      y < Pow2(e) && 2 * Rev(y / 2, e - 1) + y % 2 == x
  {
    hide Rev, Pow2;
    HalfOf(x, e);
    RevBound(x / 2, e - 1);
    RevInvolution(x / 2, e - 1);
    HalfOf(2 * Rev(x / 2, e - 1) + x % 2, e);
    Halves(Rev(x / 2, e - 1), x % 2);
    Pow2Step(e);
  }

  lemma Halves(i: nat, b: nat)
    requires b < 2
    ensures (2 * i + b) / 2 == i && (2 * i + b) % 2 == b
  {
  }

  /** Doing it twice changes nothing. */
  lemma BitReversedTwice(s: seq<real>, e: nat)
    requires e > 0 && Pow2(e) <= |s|
    ensures BitReversed(BitReversed(s, e), e) == s
  {
    hide Rev, Pow2;
    var r := BitReversed(s, e);
    var rr := BitReversed(r, e);
    forall x | 0 <= x < |s|
      ensures rr[x] == s[x]
    {
      if x < Pow2(e) {
        ComesFrom(x, e);
        var y := 2 * Rev(x / 2, e - 1) + x % 2;
        assert rr[x] == r[y];
      }
    }
  }

  lemma HalfOf(x: nat, e: nat)
    requires e > 0
    ensures x < Pow2(e) <==> x / 2 < Pow2(e - 1)
    ensures x == 2 * (x / 2) + x % 2
    ensures Pow2(e) == 2 * Pow2(e - 1)
  {
  }

  // ---------- Coordinates of a pair: q low bits, w middle bits, q high bits ----------

  /** The pair with low part j, middle part mid and high part the reversal of k. */
  function Place(j: nat, mid: nat, k: nat, q: nat, w: nat): nat {
    j + Shl(mid, q) + Shl(Rev(k, q), q + w)
  }

  function J(i: nat, q: nat): nat {
    Low(i, q)
  }

  function Mid(i: nat, q: nat, w: nat): nat {
    Low(High(i, q), w)
  }

  function K(i: nat, q: nat, w: nat): nat {
    Rev(High(i, q + w), q)
  }

  lemma InRange(j: nat, mid: nat, k: nat, q: nat, w: nat)
    requires j < Pow2(q) && mid < Pow2(w)
    ensures Place(j, mid, k, q, w) < Pow2(2 * q + w)
  {
    var field := mid + Shl(Rev(k, q), w);
    ShlAdd(mid, Shl(Rev(k, q), w), q);
    ShlShl(Rev(k, q), w, q);
    RevBound(k, q);
    FieldBound(mid, w, Rev(k, q), q);
    FieldBound(j, q, field, q + w);
  }

  lemma FieldBound(lo: nat, a: nat, hi: nat, b: nat)
    requires lo < Pow2(a) && hi < Pow2(b)
    ensures lo + Shl(hi, a) < Pow2(a + b)
  {
    ShlStrict(hi, Pow2(b), a);
    ShlOne(b);
    ShlShl(1, b, a);
    ShlOne(a + b);
  }

  lemma CoordinatesOfPlace(j: nat, mid: nat, k: nat, q: nat, w: nat)
    requires j < Pow2(q) && mid < Pow2(w) && k < Pow2(q)
    ensures var i := Place(j, mid, k, q, w); J(i, q) == j && Mid(i, q, w) == mid && K(i, q, w) == k
  {
    hide Shl, Low, High, Rev, Pow2;
    var field := mid + Shl(Rev(k, q), w);
    ShlAdd(mid, Shl(Rev(k, q), w), q);
    ShlShl(Rev(k, q), w, q);
    LowHighOfSum(j, q, field);
    LowHighOfSum(mid, w, Rev(k, q));
    HighHigh(Place(j, mid, k, q, w), q, w);
    RevInvolution(k, q);
  }

  lemma PlaceOfCoordinates(i: nat, q: nat, w: nat)
    requires i < Pow2(2 * q + w)
    ensures Place(J(i, q), Mid(i, q, w), K(i, q, w), q, w) == i
    ensures J(i, q) < Pow2(q) && Mid(i, q, w) < Pow2(w) && K(i, q, w) < Pow2(q)
  {
    LowHigh(i, q);
    LowHigh(High(i, q), w);
    HighHigh(i, q, w);
    var top := High(i, q + w);
    RevBound(top, q);
    HighBound(i, q + w, q);
    RevInvolution(top, q);
    ShlAdd(Mid(i, q, w), Shl(top, w), q);
    ShlShl(top, w, q);
  }

  lemma HighBound(i: nat, a: nat, b: nat)
    requires i < Pow2(a + b)
    ensures High(i, a) < Pow2(b)
  {
    LowHigh(i, a);
    if High(i, a) >= Pow2(b) {
      ShlOne(b);
      ShlShl(1, b, a);
      ShlOne(a + b);
      if High(i, a) > Pow2(b) {
        ShlStrict(Pow2(b), High(i, a), a);
      }
    }
  }

  /** Reversing a pair's number exchanges low and high part and reverses the middle. */
  lemma RevOfPlace(j: nat, mid: nat, k: nat, q: nat, w: nat)
    requires j < Pow2(q) && mid < Pow2(w) && k < Pow2(q)
    ensures Rev(Place(j, mid, k, q, w), 2 * q + w) == Place(k, Rev(mid, w), j, q, w)
  {
    var i := Place(j, mid, k, q, w);
    CoordinatesOfPlace(j, mid, k, q, w);
    RevSplit(i, q, 2 * q + w);
    RevSplit(High(i, q), w, q + w);
    HighHigh(i, q, w);
  }

  // ---------- The index table ----------

  /** Entry j is the bit reversal of j, in units of l samples. */
  ghost predicate Table(ip: seq<nat>, q: nat, shift: nat)
    requires Pow2(q) <= |ip|
  {
    forall j :: 0 <= j < Pow2(q) ==> ip[j] == Shl(Rev(j, q), shift)
  }

  lemma TableStep(j: nat, q: nat, shift: nat)
    requires j < Pow2(q)
    ensures Shl(Rev(j, q + 1), shift) == Shl(Rev(j, q), shift + 1)
    ensures Shl(Rev(j + Pow2(q), q + 1), shift) == Shl(Rev(j, q), shift + 1) + Pow2(shift)
  {
    hide Shl, Low, High, Rev, Pow2;
    RevOfShort(j, q, q + 1);
    assert q + 1 - q == 1;
    ShlShl(Rev(j, q), 1, shift);
    ShlOne(q);
    LowHighOfSum(j, q, 1);
    RevSplit(j + Pow2(q), q, q + 1);
    RevOfOne();
    ShlAdd(1, Shl(Rev(j, q), 1), shift);
    ShlOne(shift);
  }

  lemma RevOfOne()
    ensures Rev(1, 1) == 1
  {
    assert Rev(0, 0) == 0;
  }

  lemma SquareBelow(e: nat, q: nat)
    requires q == 0 || 2 * q + 2 <= e
    ensures Pow2(q) * Pow2(q) <= Pow2(e)
  {
    hide Pow2;
    Pow2Add(q, q);
    Pow2Monotone(2 * q, e);
  }

  lemma RootFits(length: nat, m: nat)
    requires m * m < (length + 1) * (length + 1)
    ensures m <= length
  {
    if m > length {
      MulMonotone(length + 1, m, m);
      MulMonotone(length + 1, m, length + 1);
    }
  }

  /** A table of floor(sqrt(n)) entries is long enough. */
  lemma TableFits(length: nat, n: nat, e: nat, q: nat)
    requires n == Pow2(e) && n < (length + 1) * (length + 1) && (q == 0 || 2 * q + 2 <= e)
    ensures Pow2(q) <= length
  {
    hide Pow2;
    SquareBelow(e, q);
    RootFits(length, Pow2(q));
  }

  /** The inner loop: a copy of the first m entries behind them, l larger. */
  method DoubleTable(ip: array<nat>, m: nat, l: nat)
    requires 2 * m <= ip.Length
    modifies ip
    ensures forall i :: 0 <= i < m ==> ip[i] == old(ip[i])
    ensures forall i :: m <= i < 2 * m ==> ip[i] == old(ip[i - m]) + l
  {
    var j := 0;
    while j < m
      invariant j <= m
      invariant forall i :: 0 <= i < m ==> ip[i] == old(ip[i])
      invariant forall i :: m <= i < m + j ==> ip[i] == old(ip[i - m]) + l
    {
      ip[m + j] := ip[j] + l;
      j := j + 1;
    }
  }

  /** The first loop: ip[j] becomes the reversed j, as long as 8m < l. */
  method BuildTable(n: nat, ip: array<nat>, ghost e: nat) returns (m: nat, l: nat, ghost q: nat)
    requires n == Pow2(e) && n < (ip.Length + 1) * (ip.Length + 1)
    modifies ip
    ensures q <= e && m == Pow2(q) && l == Pow2(e - q)
    ensures m <= ip.Length && Table(ip[..], q, e - q)
    ensures if 8 * m == l then e == 2 * q + 3 else e == 2 * q + 2 || (q == 0 && e < 2)
  {
    hide Table, Rev, Shl;
    q := 0;
    TableFits(ip.Length, n, e, q);
    ip[0] := 0;
    l := n;
    m := 1;
    TableBegins(ip[..], e);
    while 8 * m < l
      invariant q <= e && m == Pow2(q) && l == Pow2(e - q) && m <= ip.Length
      invariant q == 0 || 2 * q + 2 <= e
      invariant Table(ip[..], q, e - q)
      decreases l
    {
      RoomAbove(q, e - q);
      TableFits(ip.Length, n, e, q + 1);
      l := l / 2;
      ghost var was := ip[..];
      DoubleTable(ip, m, l);
      TableGrows(was, ip[..], q, e - q - 1);
      m := 2 * m;
      q := q + 1;
    }
    EndOfTable(q, e);
  }

  lemma TableBegins(ip: seq<nat>, e: nat)
    requires |ip| > 0 && ip[0] == 0
    ensures Pow2(0) == 1 && Table(ip, 0, e)
  {
    ShlOne(e);
  }

  lemma TableGrows(was: seq<nat>, now: seq<nat>, q: nat, shift: nat)
    requires |now| == |was| && Pow2(q + 1) <= |was| && Table(was, q, shift + 1)
    requires forall i :: 0 <= i < Pow2(q) ==> now[i] == was[i]
    requires forall i :: Pow2(q) <= i < 2 * Pow2(q) ==> now[i] == was[i - Pow2(q)] + Pow2(shift)
    ensures Table(now, q + 1, shift)
  {
    hide Shl, Rev;
    forall i | 0 <= i < Pow2(q + 1)
      ensures now[i] == Shl(Rev(i, q + 1), shift)
    {
      if i < Pow2(q) {
        TableStep(i, q, shift);
      } else {
        TableStep(i - Pow2(q), q, shift);
      }
    }
  }

  lemma RoomAbove(q: nat, r: nat)
    requires 8 * Pow2(q) < Pow2(r)
    ensures q + 3 < r
  {
    assert Pow2(q + 3) == 2 * Pow2(q + 2) && Pow2(q + 2) == 2 * Pow2(q + 1);
    if r <= q + 3 {
      Pow2Monotone(r, q + 3);
    }
  }

  lemma EndOfTable(q: nat, e: nat)
    requires q <= e && (q == 0 || 2 * q + 2 <= e) && 8 * Pow2(q) >= Pow2(e - q)
    ensures if 8 * Pow2(q) == Pow2(e - q) then e == 2 * q + 3 else e == 2 * q + 2 || (q == 0 && e < 2)
  {
    var r := e - q;
    assert Pow2(q + 3) == 2 * Pow2(q + 2) && Pow2(q + 2) == 2 * Pow2(q + 1);
    if q + 3 < r {
      Pow2Monotone(q + 3, r);
    } else if r < q + 3 {
      Pow2Monotone(r, q + 3);
    }
  }

  // ---------- Exchanging pairs ----------

  /** The pair that changes places with pair i, of 2^p pairs. */
  function Partner(i: nat, p: nat): (r: nat)
    ensures r < Pow2(p)
  {
    RevBound(i, p);
    Rev(i, p)
  }

  /** t is s with pairs x and y exchanged. */
  ghost predicate Exchanged(s: seq<real>, t: seq<real>, n: nat, x: nat, y: nat)
    requires 2 * n <= |s| && x < n && y < n
  {
    && |t| == |s|
    && (forall i :: 0 <= i < n ==> Pair(t, i) == Pair(s, if i == x then y else if i == y then x else i))
    && (forall z :: 2 * n <= z < |s| ==> t[z] == s[z])
  }

  /** One exchange of two pairs, which the source writes out seven times. */
  method ExchangePairs(a: array<real>, j1: nat, k1: nat, ghost x: nat, ghost y: nat, ghost n: nat)
    requires j1 == 2 * x && k1 == 2 * y && x < n && y < n && 2 * n <= a.Length
    modifies a
    ensures Exchanged(old(a[..]), a[..], n, x, y)
  {
    var xr, xi := a[j1], a[j1 + 1];
    var yr, yi := a[k1], a[k1 + 1];
    a[j1] := yr;
    a[j1 + 1] := yi;
    a[k1] := xr;
    a[k1 + 1] := xi;
  }

  /** Pairs with low part j and high part k, or the other way round. */
  predicate OnColumn(i: nat, q: nat, w: nat, j: nat, k: nat) {
    (J(i, q) == j && K(i, q, w) == k) || (J(i, q) == k && K(i, q, w) == j)
  }

  /** t is s with all pairs of columns j and k in their reversed places. */
  ghost predicate ColumnDone(s: seq<real>, t: seq<real>, q: nat, w: nat, j: nat, k: nat)
    requires 2 * Pow2(2 * q + w) <= |s|
  {
    && |t| == |s|
    && (forall i :: 0 <= i < Pow2(2 * q + w) ==>
          Pair(t, i) == Pair(s, if OnColumn(i, q, w, j, k) then Partner(i, 2 * q + w) else i))
    && (forall z :: 2 * Pow2(2 * q + w) <= z < |s| ==> t[z] == s[z])
  }

  /** What the loops have reached when they stand at columns j and k. */
  predicate Before(i: nat, q: nat, w: nat, j: nat, k: nat) {
    var low, high := J(i, q), K(i, q, w);
    (low < k && high < k) || (low == k && high < j) || (low < j && high == k)
  }

  ghost predicate Progress(s: seq<real>, t: seq<real>, q: nat, w: nat, j: nat, k: nat)
    requires 2 * Pow2(2 * q + w) <= |s|
  {
    && |t| == |s|
    && (forall i :: 0 <= i < Pow2(2 * q + w) ==>
          Pair(t, i) == Pair(s, if Before(i, q, w, j, k) then Partner(i, 2 * q + w) else i))
    && (forall z :: 2 * Pow2(2 * q + w) <= z < |s| ==> t[z] == s[z])
  }

  lemma PartnerCoordinates(i: nat, q: nat, w: nat)
    requires i < Pow2(2 * q + w)
    ensures var r := Partner(i, 2 * q + w); J(r, q) == K(i, q, w) && K(r, q, w) == J(i, q)
    ensures Partner(Partner(i, 2 * q + w), 2 * q + w) == i
  {
    hide J, K, Mid, Place, Pow2, Rev;
    PlaceOfCoordinates(i, q, w);
    RevOfPlace(J(i, q), Mid(i, q, w), K(i, q, w), q, w);
    RevBound(Mid(i, q, w), w);
    CoordinatesOfPlace(K(i, q, w), Rev(Mid(i, q, w), w), J(i, q), q, w);
    RevInvolution(i, 2 * q + w);
  }

  lemma ColumnAdds(s: seq<real>, t: seq<real>, u: seq<real>, q: nat, w: nat, j: nat, k: nat)
    requires 2 * Pow2(2 * q + w) <= |s| && j <= k
    requires Progress(s, t, q, w, j, k) && ColumnDone(t, u, q, w, j, k)
    ensures Progress(s, u, q, w, j + 1, k)
  {
    hide J, K, Pow2, Partner;
    var p := 2 * q + w;
    forall i: nat | i < Pow2(p)
      ensures Pair(u, i) == Pair(s, if Before(i, q, w, j + 1, k) then Partner(i, p) else i)
    {
      PartnerCoordinates(i, q, w);
      if OnColumn(i, q, w, j, k) {
        assert !Before(Partner(i, p), q, w, j, k);
      }
    }
  }

  lemma NextColumn(s: seq<real>, t: seq<real>, q: nat, w: nat, k: nat)
    requires 2 * Pow2(2 * q + w) <= |s| && Progress(s, t, q, w, k + 1, k)
    ensures Progress(s, t, q, w, 0, k + 1)
  {
    hide J, K, Pow2, Partner, Pair;
  }

  /** Number of samples before the pair, as the source computes it. */
  lemma PlaceInSamples(j: nat, mid: nat, k: nat, q: nat, w: nat, ip: nat, m: nat)
    requires ip == Shl(Rev(k, q), q + w + 1) && m == Pow2(q) && mid < 4
    ensures 2 * Place(j, mid, k, q, w) == 2 * j + mid * (2 * m) + ip
  {
    ShlOne(q);
    ShlAdd(1, 1, q);
    ShlAdd(2, 1, q);
    hide Shl, Rev, Pow2;
    ShlShl(Rev(k, q), q + w, 1);
    ShlOfOne(Shl(Rev(k, q), q + w));
  }

  lemma ShlOfOne(n: nat)
    ensures Shl(n, 1) == 2 * n
  {
    assert Shl(n, 0) == n;
  }

  /** Where a pair stands decides whether it is one of a column's. */
  lemma Recognise(i: nat, j: nat, mid: nat, k: nat, q: nat, w: nat)
    requires i < Pow2(2 * q + w) && j < Pow2(q) && mid < Pow2(w) && k < Pow2(q)
    ensures i == Place(j, mid, k, q, w) <==> J(i, q) == j && Mid(i, q, w) == mid && K(i, q, w) == k
    ensures i == Place(j, mid, k, q, w) ==> Partner(i, 2 * q + w) == Place(k, Rev(mid, w), j, q, w)
  {
    hide J, K, Mid, Place, Pow2, Rev;
    PlaceOfCoordinates(i, q, w);
    CoordinatesOfPlace(j, mid, k, q, w);
    RevOfPlace(j, mid, k, q, w);
  }

  lemma SmallRev()
    ensures Rev(0, 1) == 0 && Rev(1, 1) == 1
    ensures Rev(0, 2) == 0 && Rev(1, 2) == 2 && Rev(2, 2) == 1 && Rev(3, 2) == 3
    ensures Pow2(1) == 2 && Pow2(2) == 4
  {
    assert Pow2(0) == 1;
    assert Rev(0, 0) == 0 && Rev(1, 0) == 0;
    assert Rev(0, 1) == 0 && Rev(1, 1) == 1 && Rev(2, 1) == 0 && Rev(3, 1) == 1;
    assert Shl(0, 0) == 0 && Shl(1, 0) == 1 && Shl(0, 1) == 0 && Shl(1, 1) == 2;
  }

  /** Tells the eight pairs of columns j and k from one another and from the rest. */
  lemma WhichOfEight(i: nat, j: nat, k: nat, q: nat)
    requires i < Pow2(2 * q + 2) && j < k < Pow2(q)
    ensures Mid(i, q, 2) < 4
    ensures forall mid: nat :: mid < 4 ==>
      && (i == Place(j, mid, k, q, 2) <==> J(i, q) == j && Mid(i, q, 2) == mid && K(i, q, 2) == k)
      && (i == Place(k, mid, j, q, 2) <==> J(i, q) == k && Mid(i, q, 2) == mid && K(i, q, 2) == j)
    ensures i == Place(j, 0, k, q, 2) ==> Partner(i, 2 * q + 2) == Place(k, 0, j, q, 2)
    ensures i == Place(j, 1, k, q, 2) ==> Partner(i, 2 * q + 2) == Place(k, 2, j, q, 2)
    ensures i == Place(j, 2, k, q, 2) ==> Partner(i, 2 * q + 2) == Place(k, 1, j, q, 2)
    ensures i == Place(j, 3, k, q, 2) ==> Partner(i, 2 * q + 2) == Place(k, 3, j, q, 2)
    ensures i == Place(k, 0, j, q, 2) ==> Partner(i, 2 * q + 2) == Place(j, 0, k, q, 2)
    ensures i == Place(k, 1, j, q, 2) ==> Partner(i, 2 * q + 2) == Place(j, 2, k, q, 2)
    ensures i == Place(k, 2, j, q, 2) ==> Partner(i, 2 * q + 2) == Place(j, 1, k, q, 2)
    ensures i == Place(k, 3, j, q, 2) ==> Partner(i, 2 * q + 2) == Place(j, 3, k, q, 2)
  {
    hide J, K, Mid, Place, Pow2, Partner, Rev;
    SmallRev();
    PlaceOfCoordinates(i, q, 2);
    Recognise(i, j, 0, k, q, 2);
    Recognise(i, j, 1, k, q, 2);
    Recognise(i, j, 2, k, q, 2);
    Recognise(i, j, 3, k, q, 2);
    Recognise(i, k, 0, j, q, 2);
    Recognise(i, k, 1, j, q, 2);
    Recognise(i, k, 2, j, q, 2);
    Recognise(i, k, 3, j, q, 2);
  }

  /** The same with one middle bit. */
  lemma WhichOfFour(i: nat, j: nat, k: nat, q: nat)
    requires i < Pow2(2 * q + 1) && j < k < Pow2(q)
    ensures Mid(i, q, 1) < 2
    ensures forall mid: nat :: mid < 2 ==>
      && (i == Place(j, mid, k, q, 1) <==> J(i, q) == j && Mid(i, q, 1) == mid && K(i, q, 1) == k)
      && (i == Place(k, mid, j, q, 1) <==> J(i, q) == k && Mid(i, q, 1) == mid && K(i, q, 1) == j)
    ensures i == Place(j, 0, k, q, 1) ==> Partner(i, 2 * q + 1) == Place(k, 0, j, q, 1)
    ensures i == Place(j, 1, k, q, 1) ==> Partner(i, 2 * q + 1) == Place(k, 1, j, q, 1)
    ensures i == Place(k, 0, j, q, 1) ==> Partner(i, 2 * q + 1) == Place(j, 0, k, q, 1)
    ensures i == Place(k, 1, j, q, 1) ==> Partner(i, 2 * q + 1) == Place(j, 1, k, q, 1)
  {
    hide J, K, Mid, Place, Pow2, Partner, Rev;
    SmallRev();
    PlaceOfCoordinates(i, q, 1);
    Recognise(i, j, 0, k, q, 1);
    Recognise(i, j, 1, k, q, 1);
    Recognise(i, k, 0, j, q, 1);
    Recognise(i, k, 1, j, q, 1);
  }

  lemma FourMakeColumn(s: seq<real>, s1: seq<real>, s2: seq<real>, s3: seq<real>, t: seq<real>, q: nat, j: nat, k: nat)
    requires j < k < Pow2(q) && 2 * Pow2(2 * q + 2) <= |s| && SmallFits(j, k, q, 2, 4)
    requires Exchanged(s, s1, Pow2(2 * q + 2), Place(j, 0, k, q, 2), Place(k, 0, j, q, 2))
    requires Exchanged(s1, s2, Pow2(2 * q + 2), Place(j, 1, k, q, 2), Place(k, 2, j, q, 2))
    requires Exchanged(s2, s3, Pow2(2 * q + 2), Place(j, 2, k, q, 2), Place(k, 1, j, q, 2))
    requires Exchanged(s3, t, Pow2(2 * q + 2), Place(j, 3, k, q, 2), Place(k, 3, j, q, 2))
    ensures ColumnDone(s, t, q, 2, j, k)
  {
    hide J, K, Mid, Place, Pow2, Partner, Pair, Rev;
    SmallRev();
    forall i: nat | i < Pow2(2 * q + 2)
      ensures Pair(t, i) == Pair(s, if OnColumn(i, q, 2, j, k) then Partner(i, 2 * q + 2) else i)
    {
      WhichOfEight(i, j, k, q);
      WhichOfEight(Partner(i, 2 * q + 2), j, k, q);
      PartnerCoordinates(i, q, 2);
    }
  }

  /** All pairs of the two columns are among the first 2^(2q+w). */
  ghost predicate SmallFits(j: nat, k: nat, q: nat, w: nat, mids: nat) {
    forall mid :: 0 <= mid < mids ==>
      Place(j, mid, k, q, w) < Pow2(2 * q + w) && Place(k, mid, j, q, w) < Pow2(2 * q + w)
  }

  lemma ColumnFits(j: nat, k: nat, q: nat, w: nat)
    requires j < Pow2(q) && k < Pow2(q)
    ensures SmallFits(j, k, q, w, Pow2(w))
  {
    hide Place, Pow2;
    forall mid | 0 <= mid < Pow2(w)
      ensures Place(j, mid, k, q, w) < Pow2(2 * q + w) && Place(k, mid, j, q, w) < Pow2(2 * q + w)
    {
      InRange(j, mid, k, q, w);
      InRange(k, mid, j, q, w);
    }
  }

  lemma TwoMakeColumn(s: seq<real>, s1: seq<real>, t: seq<real>, q: nat, j: nat, k: nat)
    requires j < k < Pow2(q) && 2 * Pow2(2 * q + 1) <= |s| && SmallFits(j, k, q, 1, 2)
    requires Exchanged(s, s1, Pow2(2 * q + 1), Place(j, 0, k, q, 1), Place(k, 0, j, q, 1))
    requires Exchanged(s1, t, Pow2(2 * q + 1), Place(j, 1, k, q, 1), Place(k, 1, j, q, 1))
    ensures ColumnDone(s, t, q, 1, j, k)
  {
    hide J, K, Mid, Place, Pow2, Partner, Pair, Rev;
    SmallRev();
    forall i: nat | i < Pow2(2 * q + 1)
      ensures Pair(t, i) == Pair(s, if OnColumn(i, q, 1, j, k) then Partner(i, 2 * q + 1) else i)
    {
      WhichOfFour(i, j, k, q);
      WhichOfFour(Partner(i, 2 * q + 1), j, k, q);
      PartnerCoordinates(i, q, 1);
    }
  }

  /** On the diagonal only the two middle pairs change places. */
  lemma OneMakesDiagonal(s: seq<real>, t: seq<real>, q: nat, k: nat)
    requires k < Pow2(q) && 2 * Pow2(2 * q + 2) <= |s| && SmallFits(k, k, q, 2, 4)
    requires Exchanged(s, t, Pow2(2 * q + 2), Place(k, 1, k, q, 2), Place(k, 2, k, q, 2))
    ensures ColumnDone(s, t, q, 2, k, k)
  {
    hide J, K, Mid, Place, Pow2, Partner, Pair, Rev;
    SmallRev();
    forall i: nat | i < Pow2(2 * q + 2)
      ensures Pair(t, i) == Pair(s, if OnColumn(i, q, 2, k, k) then Partner(i, 2 * q + 2) else i)
    {
      PlaceOfCoordinates(i, q, 2);
      Recognise(i, k, 0, k, q, 2);
      Recognise(i, k, 1, k, q, 2);
      Recognise(i, k, 2, k, q, 2);
      Recognise(i, k, 3, k, q, 2);
    }
  }

  /** With one middle bit the diagonal stays where it is. */
  lemma DiagonalIsDone(s: seq<real>, q: nat, k: nat)
    requires k < Pow2(q) && 2 * Pow2(2 * q + 1) <= |s|
    ensures ColumnDone(s, s, q, 1, k, k)
  {
    hide J, K, Mid, Place, Pow2, Partner, Pair, Rev;
    SmallRev();
    forall i: nat | i < Pow2(2 * q + 1)
      ensures Pair(s, i) == Pair(s, if OnColumn(i, q, 1, k, k) then Partner(i, 2 * q + 1) else i)
    {
      PlaceOfCoordinates(i, q, 1);
      Recognise(i, k, 0, k, q, 1);
      Recognise(i, k, 1, k, q, 1);
    }
  }

  // ---------- The loops over the columns ----------

  /** Body of the inner loop when two middle bits are left. */
  method ExchangeFour(a: array<real>, ip: array<nat>, j: nat, k: nat, m2: nat, ghost q: nat)
    requires j < k < Pow2(q) <= ip.Length && m2 == 2 * Pow2(q) && Table(ip[..], q, q + 3)
    requires 2 * Pow2(2 * q + 2) <= a.Length
    modifies a
    ensures ColumnDone(old(a[..]), a[..], q, 2, j, k)
  {
    hide Place, Pow2, Shl, Rev, ColumnDone, Exchanged;
    SmallRev();
    ColumnFits(j, k, q, 2);
    SamplesOfColumn(j, k, q, 2, ip[..], m2);
    ghost var n := Pow2(2 * q + 2);
    ghost var s := a[..];
    var j1 := 2 * j + ip[k];
    var k1 := 2 * k + ip[j];
    ExchangePairs(a, j1, k1, Place(j, 0, k, q, 2), Place(k, 0, j, q, 2), n);
    ghost var s1 := a[..];
    j1 := j1 + m2;
    k1 := k1 + 2 * m2;
    ExchangePairs(a, j1, k1, Place(j, 1, k, q, 2), Place(k, 2, j, q, 2), n);
    ghost var s2 := a[..];
    j1 := j1 + m2;
    k1 := k1 - m2;
    ExchangePairs(a, j1, k1, Place(j, 2, k, q, 2), Place(k, 1, j, q, 2), n);
    ghost var s3 := a[..];
    j1 := j1 + m2;
    k1 := k1 + 2 * m2;
    ExchangePairs(a, j1, k1, Place(j, 3, k, q, 2), Place(k, 3, j, q, 2), n);
    FourMakeColumn(s, s1, s2, s3, a[..], q, j, k);
  }

  /** Body of the inner loop when one middle bit is left. */
  method ExchangeTwo(a: array<real>, ip: array<nat>, j: nat, k: nat, m2: nat, ghost q: nat)
    requires j < k < Pow2(q) <= ip.Length && m2 == 2 * Pow2(q) && Table(ip[..], q, q + 2)
    requires 2 * Pow2(2 * q + 1) <= a.Length
    modifies a
    ensures ColumnDone(old(a[..]), a[..], q, 1, j, k)
  {
    hide Place, Pow2, Shl, Rev, ColumnDone, Exchanged;
    SmallRev();
    ColumnFits(j, k, q, 1);
    SamplesOfColumn(j, k, q, 1, ip[..], m2);
    ghost var n := Pow2(2 * q + 1);
    ghost var s := a[..];
    var j1 := 2 * j + ip[k];
    var k1 := 2 * k + ip[j];
    ExchangePairs(a, j1, k1, Place(j, 0, k, q, 1), Place(k, 0, j, q, 1), n);
    ghost var s1 := a[..];
    j1 := j1 + m2;
    k1 := k1 + m2;
    ExchangePairs(a, j1, k1, Place(j, 1, k, q, 1), Place(k, 1, j, q, 1), n);
    TwoMakeColumn(s, s1, a[..], q, j, k);
  }

  /** What follows the inner loop when two middle bits are left. */
  method ExchangeMiddle(a: array<real>, ip: array<nat>, k: nat, m2: nat, ghost q: nat)
    requires k < Pow2(q) <= ip.Length && m2 == 2 * Pow2(q) && Table(ip[..], q, q + 3)
    requires 2 * Pow2(2 * q + 2) <= a.Length
    modifies a
    ensures ColumnDone(old(a[..]), a[..], q, 2, k, k)
  {
    hide Place, Pow2, Shl, Rev, ColumnDone, Exchanged;
    SmallRev();
    ColumnFits(k, k, q, 2);
    SamplesOfColumn(k, k, q, 2, ip[..], m2);
    ghost var s := a[..];
    var j1 := 2 * k + m2 + ip[k];
    var k1 := j1 + m2;
    ExchangePairs(a, j1, k1, Place(k, 1, k, q, 2), Place(k, 2, k, q, 2), Pow2(2 * q + 2));
    OneMakesDiagonal(s, a[..], q, k);
  }

  lemma SamplesOfColumn(j: nat, k: nat, q: nat, w: nat, ip: seq<nat>, m2: nat)
    requires j < Pow2(q) && k < Pow2(q) <= |ip| && m2 == 2 * Pow2(q) && Table(ip, q, q + w + 1)
    ensures 2 * Place(j, 0, k, q, w) == 2 * j + ip[k] && 2 * Place(k, 0, j, q, w) == 2 * k + ip[j]
    ensures 2 * Place(j, 1, k, q, w) == 2 * j + m2 + ip[k] && 2 * Place(k, 1, j, q, w) == 2 * k + m2 + ip[j]
    ensures 2 * Place(j, 2, k, q, w) == 2 * j + 2 * m2 + ip[k] && 2 * Place(k, 2, j, q, w) == 2 * k + 2 * m2 + ip[j]
    ensures 2 * Place(j, 3, k, q, w) == 2 * j + 3 * m2 + ip[k] && 2 * Place(k, 3, j, q, w) == 2 * k + 3 * m2 + ip[j]
  {
    hide Place, Shl, Rev, Pow2;
    var m := Pow2(q);
    PlaceInSamples(j, 0, k, q, w, ip[k], m);
    PlaceInSamples(j, 1, k, q, w, ip[k], m);
    PlaceInSamples(j, 2, k, q, w, ip[k], m);
    PlaceInSamples(j, 3, k, q, w, ip[k], m);
    PlaceInSamples(k, 0, j, q, w, ip[j], m);
    PlaceInSamples(k, 1, j, q, w, ip[j], m);
    PlaceInSamples(k, 2, j, q, w, ip[j], m);
    PlaceInSamples(k, 3, j, q, w, ip[j], m);
  }

  lemma NoProgress(s: seq<real>, q: nat, w: nat)
    requires 2 * Pow2(2 * q + w) <= |s|
    ensures Progress(s, s, q, w, 0, 0)
  {
  }

  /** When all columns are done the array is bit-reversed. */
  lemma AllColumns(s: seq<real>, t: seq<real>, q: nat, w: nat, e: nat)
    requires e == 2 * q + w + 1 && 2 * Pow2(2 * q + w) <= |s| && Progress(s, t, q, w, 0, Pow2(q))
    ensures Pow2(e) <= |s| && t == BitReversed(s, e)
  {
    hide J, K, Pow2, Rev;
    PairsOf(e, 2 * q + w);
    var r := BitReversed(s, e);
    forall x | 0 <= x < |s|
      ensures t[x] == r[x]
    {
      if x < Pow2(e) {
        var i, p := x / 2, 2 * q + w;
        PlaceOfCoordinates(i, q, w);
        RevBound(i, p);
        assert Pair(t, i) == Pair(s, Partner(i, p)) && e - 1 == p;
      }
    }
  }

  lemma PairsOf(e: nat, p: nat)
    requires e == p + 1
    ensures Pow2(e) == 2 * Pow2(p)
  {
  }

  /** The second branch starts with column 1: column 0 stays where it is. */
  lemma FirstColumn(s: seq<real>, q: nat, e: nat)
    requires e == 2 * q + 2 || (q == 0 && e == 1)
    requires Pow2(e) <= |s|
    ensures e > 1 ==> Pow2(e) == 2 * Pow2(2 * q + 1) && Progress(s, s, q, 1, 0, 1)
    ensures e == 1 ==> Pow2(q) == 1
  {
    hide Progress, ColumnDone;
    if e > 1 {
      PairsOf(e, 2 * q + 1);
      NoProgress(s, q, 1);
      DiagonalIsDone(s, q, 0);
      ColumnAdds(s, s, s, q, 1, 0, 0);
      NextColumn(s, s, q, 1, 0);
    }
  }

  lemma OnePair(s: seq<real>)
    requires Pow2(1) <= |s|
    ensures BitReversed(s, 1) == s
  {
    var r := BitReversed(s, 1);
    forall x | 0 <= x < |s|
      ensures r[x] == s[x]
    {
      assert Pow2(0) == 1 && Rev(x / 2, 0) == 0;
    }
  }

  /** bitrv2: the first n samples of a, taken as pairs, change into bit-reversed order in place. */
  method Bitrv2(n: nat, ip: array<nat>, a: array<real>, ghost e: nat)
    requires e > 0 && n == Pow2(e) && n <= a.Length && n < (ip.Length + 1) * (ip.Length + 1)
    modifies ip, a
    ensures a[..] == BitReversed(old(a[..]), e)
  {
    hide Progress, ColumnDone, Table, Pow2, BitReversed;
    ghost var s := a[..];
    var m, l;
    ghost var q;
    m, l, q := BuildTable(n, ip, e);
    var m2 := 2 * m;
    if 8 * m == l {
      PairsOf(e, 2 * q + 2);
      NoProgress(s, q, 2);
      var k := 0;
      while k < m
        invariant k <= m && Table(ip[..], q, q + 3) && Progress(s, a[..], q, 2, 0, k)
      {
        var j := 0;
        while j < k
          invariant j <= k && Table(ip[..], q, q + 3) && Progress(s, a[..], q, 2, j, k)
        {
          ghost var t := a[..];
          ExchangeFour(a, ip, j, k, m2, q);
          ColumnAdds(s, t, a[..], q, 2, j, k);
          j := j + 1;
        }
        ghost var t := a[..];
        ExchangeMiddle(a, ip, k, m2, q);
        ColumnAdds(s, t, a[..], q, 2, k, k);
        NextColumn(s, a[..], q, 2, k);
        k := k + 1;
      }
      AllColumns(s, a[..], q, 2, e);
    } else {
      FirstColumn(s, q, e);
      var k := 1;
      while k < m
        invariant k <= m
        invariant if e == 1 then a[..] == s else Table(ip[..], q, q + 2) && Progress(s, a[..], q, 1, 0, k)
      {
        var j := 0;
        while j < k
          invariant j <= k && Table(ip[..], q, q + 2) && Progress(s, a[..], q, 1, j, k)
        {
          ghost var t := a[..];
          ExchangeTwo(a, ip, j, k, m2, q);
          ColumnAdds(s, t, a[..], q, 1, j, k);
          j := j + 1;
        }
        ghost var t := a[..];
        DiagonalIsDone(t, q, k);
        ColumnAdds(s, t, t, q, 1, k, k);
        NextColumn(s, t, q, 1, k);
        k := k + 1;
      }
      if e == 1 {
        OnePair(s);
      } else {
        AllColumns(s, a[..], q, 1, e);
      }
    }
  }
}
