/** Buffered output of stb_sprintf: the callback buffer of vsprintfcb and the truncation of vsnprintf. */
module SprintfBuffer {
  import opened Common

  /** STB_SPRINTF_MIN, characters per callback */
  const MIN: nat := 512

  /** What vsprintfcb writes: text between two conversions, or one clamped run of a conversion (padding, sign or prefix,
      leading zeros, digits, trailing zeros, exponent). */
  datatype Piece = Text(s: seq<char>) | Run(s: seq<char>)

  /** The unbounded result. */
  function Output(pieces: seq<Piece>): seq<char> {
    if pieces == [] then [] else Output(pieces[..|pieces| - 1]) + pieces[|pieces| - 1].s
  }

  /** The context of vsnprintf and the local state of vsprintfcb that deals with the buffer. */
  class Printer {
    /** The caller's buffer and the context's own one. */
    const out: array<char>
    const tmp: array<char>
    /** Room in the caller's buffer at the beginning; 0 stands for the null buffer of the counting mode. */
    const room: nat
    var pos: nat
    var count: nat
    var length: nat
    /** Whether the current buffer is the caller's, from pos on. */
    var direct: bool
    /** bf - buf */
    var len: nat
    var tlen: nat
    /** All that has been handed to the callback. */
    ghost var flushed: seq<char>

    /** What the caller's buffer held at first. */
    ghost const original: seq<char>

    /** What the current buffer holds. */
    ghost function Held(): (s: seq<char>)
      requires len <= tmp.Length && (direct ==> pos + len <= out.Length)
      reads this`pos, this`len, this`direct, out, tmp
      ensures |s| == len
    {
      if direct then out[pos..pos + len] else tmp[..len]
    }

    /** End of what has been written to the caller's buffer. */
    ghost function Reached(): nat
      reads this
    {
      if direct then pos + len else pos
    }

    /** The buffer never holds more than MIN characters; the caller's buffer has the beginning of what was flushed. */
    ghost predicate Buffered()
      reads this, out, tmp
    {
      && tmp.Length == MIN && tmp != out && room <= out.Length && pos + count == room
      && len <= MIN && (direct ==> count >= MIN)
      && length == |flushed|
      && pos == Least(|flushed|, room) && out[..pos] == flushed[..pos]
      && |original| == out.Length && out[Reached()..] == original[Reached()..]
    }

    ghost predicate Valid()
      reads this, out, tmp
    {
      Buffered() && tlen == length
    }

    /** Everything written so far. */
    ghost function Emitted(): seq<char>
      requires Valid()
      reads this, out, tmp
    {
      flushed + Held()
    }

    constructor (out: array<char>, room: nat)
      requires room <= out.Length
      ensures Valid() && Emitted() == [] && fresh(tmp) && this.out == out && this.room == room && original == out[..]
    {
      this.out, this.room, original := out, room, out[..];
      tmp := new char[MIN](_ => '\0');
      pos, count, length, len, tlen, direct := 0, room, 0, 0, 0, room >= MIN;
      flushed := [];
    }

    /** stbsp__clamp_callback; for the null buffer stbsp__count_clamp_callback, which only counts. */
    method Callback()
      requires Buffered()
      modifies this`pos, this`count, this`length, this`direct, out
      ensures length == old(length) + len && pos + count == room
      ensures pos == Least(|flushed| + len, room) && out[..pos] == (flushed + old(Held()))[..pos]
      ensures direct ==> count >= MIN
      ensures out[pos..] == original[pos..]
    {
      hide Held, Replaced;
      ghost var before, held := out[..], Held();
      length := length + len;
      var n := if len > count then count else len;
      CopyOut(n);
      Handed(before, out[..], pos, n, flushed, held, room);
      BehindKept(before, out[..], original, pos, held, n, direct);
      pos, count := pos + n, count - n;
      direct := count >= MIN;
    }

    /** Moves n characters to the caller's buffer, unless they are there already. */
    method CopyOut(n: nat)
      requires n <= len <= tmp.Length && tmp != out && pos + n <= out.Length && (direct ==> pos + len <= out.Length)
      modifies out
      ensures out[..] == Replaced(old(out[..]), pos, old(Held())[..n])
    {
      if n > 0 && !direct {
        forall k | 0 <= k < n {
          out[pos + k] := tmp[k];
        }
      }
    }

    /** stbsp__chk_cb_bufL: hands the buffer over when another bytes characters would fill it. */
    method Check(bytes: nat)
      requires Valid()
      modifies this, out
      ensures Valid() && Emitted() == old(Emitted())
      ensures len == if old(len) + bytes >= MIN then 0 else old(len)
      ensures len == 0 && old(len) + bytes >= MIN ==> flushed == old(Emitted())
    {
      if len + bytes >= MIN {
        tlen := tlen + len;
        ghost var held := Held();
        Callback();
        flushed := flushed + held;
        len := 0;
      }
    }

    /** *bf++ = c */
    method Put(c: char)
      requires Valid() && len < MIN
      modifies this`len, out, tmp
      ensures Valid() && len == old(len) + 1 && Emitted() == old(Emitted()) + [c]
    {
      hide Least;
      ghost var behind := out[Reached()..];
      if direct {
        out[pos + len] := c;
      } else {
        tmp[len] := c;
      }
      len := len + 1;
      assert Held() == old(Held()) + [c];
      assert out[Reached()..] == if direct then behind[1..] else behind;
      assert out[..pos] == old(out[..pos]);
    }

    /** Text between two conversions. Four characters go in one step when the source address is aligned, none of them
        ends the text and the buffer has room for them; where the address is aligned is left open. */
    method EmitText(s: seq<char>)
      requires Valid()
      modifies this, out, tmp
      ensures Valid() && Emitted() == old(Emitted()) + s
    {
      hide Valid, Emitted;
      var f := 0;
      FitsMin();
      NothingMore(s, old(Emitted()));
      while f < |s|
        invariant f <= |s| && Valid() && len <= MIN && Emitted() == old(Emitted()) + s[..f]
      {
        var aligned: bool := *;
        ghost var e := Emitted();
        if aligned && |s| - f >= 4 && MIN - len >= 4 {
          Put(s[f]);
          Put(s[f + 1]);
          Put(s[f + 2]);
          Put(s[f + 3]);
          FourMore(s, f, old(Emitted()), e, Emitted());
          f := f + 4;
        } else {
          Check(1);
          Put(s[f]);
          OneMore(s, f, old(Emitted()), e, Emitted());
          f := f + 1;
        }
      }
      assert s[..f] == s;
    }

    /** A run of a conversion: clamped to the room in the buffer, checked after every part. When the buffer is exactly
        full the part is empty and the check makes room. */
    method EmitRun(s: seq<char>)
      requires Valid()
      modifies this, out, tmp
      ensures Valid() && Emitted() == old(Emitted()) + s
    {
      hide Valid, Emitted;
      var f, n := 0, |s|;
      FitsMin();
      NothingMore(s, old(Emitted()));
      while n > 0
        invariant 0 <= n && f + n == |s| && Valid() && len <= MIN && Emitted() == old(Emitted()) + s[..f]
        decreases n, len
      {
        var i := n;
        var lg := MIN - len;
        if i > lg {
          i := lg;
        }
        n := n - i;
        ghost var was := len;
        while i > 0
          invariant 0 <= i && f + i + n == |s| && Valid() && len + i <= MIN && Emitted() == old(Emitted()) + s[..f]
          invariant len >= was && (len == was ==> i == (if n + i > lg then lg else n + i))
        {
          ghost var e := Emitted();
          Put(s[f]);
          OneMore(s, f, old(Emitted()), e, Emitted());
          f := f + 1;
          i := i - 1;
        }
        Check(1);
      }
      assert s[..f] == s;
    }

    lemma FitsMin()
      requires Valid()
      ensures len <= MIN
    {
    }

    /** vsprintfcb, once the format has been taken apart: returns what it would without a buffer limit. */
    method Vsprintfcb(pieces: seq<Piece>) returns (r: nat)
      requires Valid() && Emitted() == []
      modifies this, out, tmp
      ensures Valid() && r == |Output(pieces)| && flushed == Output(pieces) && len == 0
    {
      hide Buffered;
      var k := 0;
      while k < |pieces|
        invariant k <= |pieces| && Valid() && Emitted() == Output(pieces[..k])
      {
        NextPiece(pieces, k);
        match pieces[k] {
          case Text(s) => EmitText(s);
          case Run(s) => EmitRun(s);
        }
        k := k + 1;
      }
      assert pieces[..k] == pieces;
      Check(MIN - 1);
      AllFlushed();
      r := tlen + len;
    }

    lemma AllFlushed()
      requires Valid() && len == 0
      ensures Emitted() == flushed && length == |flushed|
    {
    }
  }

  /** s with t in place of the characters from pos on. */
  function Replaced(s: seq<char>, pos: nat, t: seq<char>): (r: seq<char>)
    requires pos + |t| <= |s|
    ensures |r| == |s|
  {
    s[..pos] + t + s[pos + |t|..]
  }

  /** What the callback leaves in the caller's buffer is the beginning of all that has been flushed. */
  lemma Handed(before: seq<char>, after: seq<char>, pos: nat, n: nat, flushed: seq<char>, held: seq<char>, room: nat)
    requires n == (if |held| > room - pos then room - pos else |held|) && pos == Least(|flushed|, room)
    requires pos + n <= |before| && before[..pos] == flushed[..pos]
    requires after == Replaced(before, pos, held[..n])
    ensures pos + n == Least(|flushed| + |held|, room) && after[..pos + n] == (flushed + held)[..pos + n]
  {
    assert after[..pos + n] == before[..pos] + held[..n];
    if pos == |flushed| {
      assert (flushed + held)[..pos + n] == flushed + held[..n];
    } else {
      assert n == 0 && (flushed + held)[..pos] == flushed[..pos];
    }
  }

  /** Behind what has been written the caller's buffer is as it was. */
  lemma BehindKept(before: seq<char>, after: seq<char>, original: seq<char>, pos: nat, held: seq<char>, n: nat,
                   direct: bool)
    requires n <= |held| && pos + n <= |before| == |original| && after == Replaced(before, pos, held[..n])
    requires direct ==> n == |held| && pos + |held| <= |before|
    requires before[if direct then pos + |held| else pos..] == original[if direct then pos + |held| else pos..]
    ensures after[pos + n..] == original[pos + n..]
  {
    assert after[pos + n..] == before[pos + n..];
    if !direct {
      assert before[pos..][n..] == before[pos + n..] && original[pos..][n..] == original[pos + n..];
    }
  }

  lemma NextPiece(pieces: seq<Piece>, k: nat)
    requires k < |pieces|
    ensures Output(pieces[..k + 1]) == Output(pieces[..k]) + pieces[k].s
  {
    assert pieces[..k + 1][..k] == pieces[..k];
  }

  /** vsnprintf: stores the first min(length, count - 1) characters and a terminator, nothing else, and returns the full
      length; the null buffer with count 0 only counts. A proper buffer with count 0 should get nothing at all, but the
      terminator's index comes out as -1, in front of the buffer; the model leaves the write out where it would miss. */
  method Vsnprintf(buf: array?<char>, count: nat, pieces: seq<Piece>) returns (r: nat, terminator: int)
    requires if buf == null then count == 0 else count <= buf.Length
    modifies buf
    ensures r == |Output(pieces)|
    ensures buf != null ==> terminator == if r < count then r else count - 1
    ensures buf != null ==> (0 <= terminator < buf.Length <==> count > 0)
    ensures buf != null && count > 0 ==> var m := Least(r, count - 1);
      buf[..m] == Output(pieces)[..m] && buf[m] == '\0' && buf[m + 1..] == old(buf[m + 1..])
    ensures buf != null && count == 0 ==> buf[..] == old(buf[..])
  {
    hide Printer.Held;
    if buf == null {
      var none := new char[0];
      var counter := new Printer(none, 0);
      var full := counter.Vsprintfcb(pieces);
      counter.AllFlushed();
      return counter.length, 0;
    }
    var c := new Printer(buf, count);
    ghost var original := buf[..];
    var full := c.Vsprintfcb(pieces);
    c.AllFlushed();
    var l: int := c.pos;
    if l >= count {
      l := count - 1;
    }
    assert buf[c.pos..] == original[c.pos..];
    if l >= 0 {
      TailKept(buf[..], original, c.pos, l);
      buf[l] := '\0';
      assert buf[l + 1..] == original[l + 1..];
    }
    r, terminator := c.length, l;
  }

  /** Two characters into a buffer of four with count 0: the terminator would go to index -1. */
  method CountZeroMisses() returns (r: nat, terminator: int)
    ensures r == 2 && terminator == -1
  {
    var buf := new char[4](_ => 'x');
    var pieces := [Text("ab")];
    assert Output(pieces[..0]) == [] && Output(pieces) == Output(pieces[..0]) + "ab";
    r, terminator := Vsnprintf(buf, 0, pieces);
  }

  lemma TailKept(now: seq<char>, original: seq<char>, pos: nat, l: nat)
    requires |now| == |original| && pos <= l + 1 <= |now| && now[pos..] == original[pos..]
    ensures now[l + 1..] == original[l + 1..]
  {
    assert now[pos..][l + 1 - pos..] == now[l + 1..] && original[pos..][l + 1 - pos..] == original[l + 1..];
  }

  lemma NothingMore(s: seq<char>, e: seq<char>)
    ensures e + s[..0] == e
  {
  }

  lemma OneMore(s: seq<char>, f: nat, before: seq<char>, e: seq<char>, now: seq<char>)
    requires f < |s| && e == before + s[..f] && now == e + [s[f]]
    ensures now == before + s[..f + 1]
  {
  }

  lemma FourMore(s: seq<char>, f: nat, before: seq<char>, e: seq<char>, now: seq<char>)
    requires f + 4 <= |s| && e == before + s[..f]
    requires now == e + [s[f]] + [s[f + 1]] + [s[f + 2]] + [s[f + 3]]
    ensures now == before + s[..f + 4]
  {
    assert s[..f + 4] == s[..f] + [s[f]] + [s[f + 1]] + [s[f + 2]] + [s[f + 3]];
  }
}
