/** `str.replace` and UTF-8 length, as the probe engine uses them on body templates. */
module Substitution {
  import opened Text

  // ---------------------------------------------------------------- UTF-8

  function EncodeChar(c: char): (r: Bytes)
    ensures 1 <= |r| <= 4
  {
    var n := c as int;
    if n < 0x80 then [n as byte]
    else if n < 0x800 then [(0xc0 + n / 64) as byte, (0x80 + n % 64) as byte]
    else if n < 0x1_0000 then [(0xe0 + n / 4096) as byte, (0x80 + n / 64 % 64) as byte, (0x80 + n % 64) as byte]
    else
      [(0xf0 + n / 262144) as byte, (0x80 + n / 4096 % 64) as byte, (0x80 + n / 64 % 64) as byte,
       (0x80 + n % 64) as byte]
  }

  /** `s.encode("utf-8")` */
  function Encode(s: string): Bytes {
    if s == "" then [] else EncodeChar(s[0]) + Encode(s[1..])
  }

  predicate IsContinuation(b: byte) { 0x80 <= b as int < 0xc0 }

  /** The number that the lead bits and the continuation bytes spell, six bits a byte. */
  function Spelled(lead: nat, tail: Bytes): Option<nat>
    decreases |tail|
  {
    if tail == [] then Some(lead)
    else if IsContinuation(tail[0]) then Spelled(lead * 64 + (tail[0] as int - 0x80), tail[1..])
    else None
  }

  function CharAt(n: nat): Option<char> {
    if n < 0xd800 || 0xe000 <= n < 0x11_0000 then Some(n as char) else None
  }

  /** How many bytes a character takes by its first byte, and the bits of it that this byte holds. */
  function Lead(first: byte): Option<(nat, nat)> {
    var n := first as int;
    if n < 0x80 then Some((1, n))
    else if 0xc0 <= n < 0xe0 then Some((2, n - 0xc0))
    else if 0xe0 <= n < 0xf0 then Some((3, n - 0xe0))
    else if 0xf0 <= n < 0xf8 then Some((4, n - 0xf0))
    else None
  }

  /** The first character and the bytes behind it, in the layout of section 3 of RFC 3629. */
  function DecodeFirst(b: Bytes): (r: Option<(char, Bytes)>)
    ensures r.Some? ==> |r.value.1| < |b|
  {
    if b == [] then None
    else
      match Lead(b[0])
      case None => None
      case Some((width, bits)) =>
        if width == 0 || |b| < width then None
        else
          match Spelled(bits, b[1..width])
          case None => None
          case Some(n) =>
            match CharAt(n)
            case None => None
            case Some(c) => Some((c, b[width..]))
  }

  function Decode(b: Bytes): Option<string> {
    if b == [] then Some("")
    else
      match DecodeFirst(b)
      case None => None
      case Some((c, rest)) =>
        match Decode(rest)
        case None => None
        case Some(s) => Some([c] + s)
  }

  /** One continuation byte holds six bits. */
  lemma SpelledOne(lead: nat, low: nat, tail: Bytes)
    requires low < 64
    ensures Spelled(lead, [(0x80 + low) as byte] + tail) == Spelled(lead * 64 + low, tail)
  {
    assert ([(0x80 + low) as byte] + tail)[1..] == tail;
  }

  lemma SpelledTwo(n: nat)
    ensures Spelled(n / 64, [(0x80 + n % 64) as byte]) == Some(n)
  {
    SpelledOne(n / 64, n % 64, []);
    assert [(0x80 + n % 64) as byte] + [] == [(0x80 + n % 64) as byte];
  }

  lemma SixBitsMore(n: nat, d: nat)
    requires d == 64 || d == 4096
    ensures n / (d * 64) * 64 + n / d % 64 == n / d
  {
    if d == 64 {
      assert n / 64 / 64 == n / 4096;
    } else {
      assert n / 4096 / 64 == n / 262144;
    }
  }

  lemma SpelledThree(n: nat)
    ensures Spelled(n / 4096, [(0x80 + n / 64 % 64) as byte, (0x80 + n % 64) as byte]) == Some(n)
  {
    var last: Bytes := [(0x80 + n % 64) as byte];
    SixBitsMore(n, 64);
    SpelledOne(n / 4096, n / 64 % 64, last);
    SpelledTwo(n);
    assert [(0x80 + n / 64 % 64) as byte] + last == [(0x80 + n / 64 % 64) as byte, (0x80 + n % 64) as byte];
  }

  lemma SpelledFour(n: nat)
    ensures Spelled(n / 262144, [(0x80 + n / 4096 % 64) as byte, (0x80 + n / 64 % 64) as byte, (0x80 + n % 64) as byte])
         == Some(n)
  {
    var last: Bytes := [(0x80 + n / 64 % 64) as byte, (0x80 + n % 64) as byte];
    SixBitsMore(n, 4096);
    SpelledOne(n / 262144, n / 4096 % 64, last);
    SpelledThree(n);
    assert [(0x80 + n / 4096 % 64) as byte] + last
        == [(0x80 + n / 4096 % 64) as byte, (0x80 + n / 64 % 64) as byte, (0x80 + n % 64) as byte];
  }

  /** The layout of one character: the first byte gives the width and the lead bits, the others spell the rest. */
  lemma CharLayout(c: char)
    ensures var b := EncodeChar(c);
      Lead(b[0]).Some? && Lead(b[0]).value.0 == |b| && Spelled(Lead(b[0]).value.1, b[1..]) == Some(c as int)
  {
    var n := c as int;
    if n < 0x80 {
    } else if n < 0x800 {
      SpelledTwo(n);
    } else if n < 0x1_0000 {
      SpelledThree(n);
    } else {
      SpelledFour(n);
    }
  }

  lemma CharReadsBack(c: char, rest: Bytes)
    ensures DecodeFirst(EncodeChar(c) + rest) == Some((c, rest))
  {
    CharLayout(c);
    var e := EncodeChar(c);
    assert (e + rest)[0] == e[0] && (e + rest)[1..|e|] == e[1..] && (e + rest)[|e|..] == rest;
  }

  /** The bytes of a text decode to the text. */
  lemma {:induction false} EncodeReadsBack(s: string)
    ensures Decode(Encode(s)) == Some(s)
  {
    if s != "" {
      EncodeReadsBack(s[1..]);
      CharReadsBack(s[0], Encode(s[1..]));
      assert s == [s[0]] + s[1..];
    }
  }

  function Size(s: string): nat { |Encode(s)| }

  lemma {:induction false} SizeConcat(a: string, b: string)
    ensures Size(a + b) == Size(a) + Size(b)
  {
    if a == "" {
      assert a + b == b;
    } else {
      assert (a + b)[1..] == a[1..] + b;
      SizeConcat(a[1..], b);
    }
  }

  // ---------------------------------------------------------------- str.replace

  /** Leftmost, non-overlapping replacement of `p` by `r`. */
  function Replace(t: string, p: string, r: string): string
    requires p != ""
    decreases |t|
  {
    if t == "" then ""
    else if p <= t then r + Replace(t[|p|..], p, r)
    else [t[0]] + Replace(t[1..], p, r)
  }

  /** `p in t` */
  predicate Contains(t: string, p: string) {
    p <= t || (t != "" && Contains(t[1..], p))
  }

  /** The pieces of `t` between the occurrences that `replace` takes: `t.split(p)`. */
  function Pieces(t: string, p: string): (r: seq<string>)
    requires p != ""
    ensures |r| >= 1
    decreases |t|
  {
    if t == "" then [""]
    else if p <= t then [""] + Pieces(t[|p|..], p)
    else
      var rest := Pieces(t[1..], p);
      [[t[0]] + rest[0]] + rest[1..]
  }

  function Occurrences(t: string, p: string): nat
    requires p != ""
  {
    |Pieces(t, p)| - 1
  }

  /** The pieces with `sep` between them. */
  function Weave(pieces: seq<string>, sep: string): string
    requires pieces != []
  {
    if |pieces| == 1 then pieces[0] else pieces[0] + (sep + Weave(pieces[1..], sep))
  }

  lemma WeavePrepend(x: string, pieces: seq<string>, sep: string)
    requires pieces != []
    ensures Weave([x + pieces[0]] + pieces[1..], sep) == x + Weave(pieces, sep)
  {
    var longer := [x + pieces[0]] + pieces[1..];
    if |pieces| > 1 {
      assert longer[1..] == pieces[1..];
      assert (x + pieces[0]) + (sep + Weave(pieces[1..], sep)) == x + (pieces[0] + (sep + Weave(pieces[1..], sep)));
    }
  }

  lemma WeaveEmptyFirst(pieces: seq<string>, sep: string)
    requires pieces != []
    ensures Weave([""] + pieces, sep) == sep + Weave(pieces, sep)
  {
    assert ([""] + pieces)[1..] == pieces;
    assert "" + (sep + Weave(pieces, sep)) == sep + Weave(pieces, sep);
  }

  /** The text is its pieces joined by the pattern. */
  lemma {:induction false} TextIsWeave(t: string, p: string)
    requires p != ""
    ensures Weave(Pieces(t, p), p) == t
    decreases |t|
  {
    if t == "" {
    } else if p <= t {
      TextIsWeave(t[|p|..], p);
      WeaveEmptyFirst(Pieces(t[|p|..], p), p);
      assert t == p + t[|p|..];
    } else {
      TextIsWeave(t[1..], p);
      WeavePrepend([t[0]], Pieces(t[1..], p), p);
      assert t == [t[0]] + t[1..];
    }
  }

  /** The replaced text is the same pieces joined by the replacement. */
  lemma {:induction false} ReplacedIsWeave(t: string, p: string, r: string)
    requires p != ""
    ensures Weave(Pieces(t, p), r) == Replace(t, p, r)
    decreases |t|
  {
    if t == "" {
    } else if p <= t {
      ReplacedIsWeave(t[|p|..], p, r);
      WeaveEmptyFirst(Pieces(t[|p|..], p), r);
    } else {
      ReplacedIsWeave(t[1..], p, r);
      WeavePrepend([t[0]], Pieces(t[1..], p), r);
    }
  }

  /** Replacing takes a text apart at the pattern and joins the pieces with the replacement instead. */
  lemma ReplaceIsWeave(t: string, p: string, r: string)
    requires p != ""
    ensures Weave(Pieces(t, p), p) == t
    ensures Weave(Pieces(t, p), r) == Replace(t, p, r)
  {
    TextIsWeave(t, p);
    ReplacedIsWeave(t, p, r);
  }

  /** `p` starts in `t` at position `i`. */
  predicate StartsAt(t: string, p: string, i: nat) {
    i <= |t| && p <= t[i..]
  }

  lemma {:induction false} FirstPieceIsLeftmost(t: string, p: string, i: nat)
    requires p != "" && i < |Pieces(t, p)[0]|
    ensures !StartsAt(t, p, i)
    decreases |t|
  {
    if t != "" && !(p <= t) && 0 < i <= |t| {
      FirstPieceIsLeftmost(t[1..], p, i - 1);
      assert t[1..][i - 1..] == t[i..];
    }
  }

  /** The rest of the pieces are the pieces of the rest. */
  lemma {:induction false} PiecesOfRest(t: string, p: string)
    requires p != "" && |Pieces(t, p)| > 1
    ensures var n := |Pieces(t, p)[0]| + |p|;
      n <= |t| && Pieces(t[n..], p) == Pieces(t, p)[1..]
    decreases |t|
  {
    if !(p <= t) {
      PiecesOfRest(t[1..], p);
      var n := |Pieces(t, p)[0]| + |p|;
      assert t[1..][n - 1..] == t[n..];
    }
  }

  /**
   * Every occurrence taken is the leftmost one left: seen from the start of piece `k`, `p` starts nowhere inside it.
   */
  lemma {:induction false} PiecesAreLeftmost(t: string, p: string, k: nat, i: nat)
    requires p != "" && k < |Pieces(t, p)| && i < |Pieces(t, p)[k]|
    ensures !StartsAt(Weave(Pieces(t, p)[k..], p), p, i)
    decreases k
  {
    if k == 0 {
      ReplaceIsWeave(t, p, p);
      assert Pieces(t, p)[0..] == Pieces(t, p);
      FirstPieceIsLeftmost(t, p, i);
    } else {
      PiecesOfRest(t, p);
      var rest := t[|Pieces(t, p)[0]| + |p|..];
      PiecesAreLeftmost(rest, p, k - 1, i);
      assert Pieces(t, p)[1..][k - 1..] == Pieces(t, p)[k..];
    }
  }

  /** `p` stands in `t` at position `i`. */
  predicate Occurs(t: string, p: string, i: int) {
    0 <= i <= |t| && p <= t[i..]
  }

  lemma {:induction false} ContainsMeans(t: string, p: string)
    ensures Contains(t, p) <==> exists i :: Occurs(t, p, i)
  {
    assert t[0..] == t;
    if t != "" {
      ContainsMeans(t[1..], p);
      forall i | Occurs(t[1..], p, i) ensures Occurs(t, p, i + 1) { assert t[1..][i..] == t[i + 1..]; }
      forall i | Occurs(t, p, i) && i > 0 ensures Occurs(t[1..], p, i - 1) { assert t[1..][i - 1..] == t[i..]; }
    }
    if Contains(t, p) {
      if p <= t { assert Occurs(t, p, 0); }
    }
  }

  lemma {:induction false} ContainsExactly(t: string, p: string)
    requires p != ""
    ensures Contains(t, p) <==> Occurrences(t, p) > 0
    decreases |t|
  {
    if t != "" && !(p <= t) { ContainsExactly(t[1..], p); }
  }

  lemma {:induction false} SizeOfWeave(pieces: seq<string>, p: string, r: string)
    requires pieces != []
    ensures Size(Weave(pieces, r)) == Size(Weave(pieces, p)) + (|pieces| - 1) * (Size(r) - Size(p))
  {
    if |pieces| > 1 {
      SizeOfWeave(pieces[1..], p, r);
      SizeOfJoint(pieces[0], p, Weave(pieces[1..], p));
      SizeOfJoint(pieces[0], r, Weave(pieces[1..], r));
      OneMoreTime(|pieces| - 1, Size(r) - Size(p));
    }
  }

  lemma SizeOfJoint(a: string, b: string, c: string)
    ensures Size(a + (b + c)) == Size(a) + Size(b) + Size(c)
  {
    SizeConcat(a, b + c);
    SizeConcat(b, c);
  }

  lemma OneMoreTime(n: int, d: int)
    ensures n * d == (n - 1) * d + d
  {
  }

  /** The exact size of a substituted body. */
  lemma SizeOfReplace(t: string, p: string, r: string)
    requires p != ""
    ensures Size(Replace(t, p, r)) == Size(t) + Occurrences(t, p) * (Size(r) - Size(p))
  {
    ReplaceIsWeave(t, p, r);
    SizeOfWeave(Pieces(t, p), p, r);
  }
}
