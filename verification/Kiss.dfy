/** KISS framing on a byte stream (internal/iface/kiss.go:11-90). A reader that starts anywhere
    in a stream of frames resynchronises at the next frame and misses nothing after it. */
module Kiss {
  import opened Basics

  type Byte = bv8
  type Bytes = seq<Byte>

  const FEND: Byte := 0xC0
  const FESC: Byte := 0xDB
  const TFEND: Byte := 0xDC
  const TFESC: Byte := 0xDD
  const CMD_DATA: Byte := 0x00

  // ---- encoding -----------------------------------------------------------------------------

  function EscapedByte(b: Byte): Bytes { if b == FEND then [FESC, TFEND] else if b == FESC then [FESC, TFESC] else [b] }

  function Escaped(p: Bytes): Bytes { if p == [] then [] else EscapedByte(p[0]) + Escaped(p[1..]) }

  function Encoded(p: Bytes): Bytes { [FEND, CMD_DATA] + Escaped(p) + [FEND] }

  lemma {:induction false} EscapedSnoc(p: Bytes, b: Byte)
    ensures Escaped(p + [b]) == Escaped(p) + EscapedByte(b)
  {
    if p == [] {
      assert (p + [b])[1..] == [];
    } else {
      assert (p + [b])[1..] == p[1..] + [b];
      EscapedSnoc(p[1..], b);
    }
  }

  /** The frames of single bytes, as bytes: the delimiter 0xC0 and the escape 0xDB travel as two, and
      every other byte as itself. */
  lemma {:induction false} EncodedBytes(b: Byte)
    ensures Encoded([b]) ==
            if b == 0xC0 then [0xC0, 0x00, 0xDB, 0xDC, 0xC0]
            else if b == 0xDB then [0xC0, 0x00, 0xDB, 0xDD, 0xC0]
            else [0xC0, 0x00, b, 0xC0]
  {
    assert [b][1..] == [];
    assert Escaped([b]) == EscapedByte(b) + [];
  }

  method Encode(payload: Bytes) returns (out: Bytes)
    ensures out == Encoded(payload)
  {
    out := [FEND, CMD_DATA];
    for i := 0 to |payload|
      invariant out == [FEND, CMD_DATA] + Escaped(payload[..i])
    {
      var b := payload[i];
      if b == FEND {
        out := out + [FESC, TFEND];
      } else if b == FESC {
        out := out + [FESC, TFESC];
      } else {
        out := out + [b];
      }
      assert payload[..i + 1] == payload[..i] + [b];
      EscapedSnoc(payload[..i], b);
    }
    assert payload[..|payload|] == payload;
    out := out + [FEND];
  }

  // ---- decoding -----------------------------------------------------------------------------

  datatype Frame = Frame(payload: Bytes, rest: Bytes)

  function Unescaped(n: Byte): Byte { if n == TFEND then FEND else if n == TFESC then FESC else n }

  /** Reads up to the closing delimiter; delimiters before the first byte are skipped. */
  function ReadBody(s: Bytes, frame: Bytes): (r: Option<Frame>)
    ensures r.Some? ==> |r.value.rest| < |s|
    decreases |s|
  {
    if s == [] then None
    else if s[0] == FEND then if frame == [] then ReadBody(s[1..], frame) else Some(Frame(frame[1..], s[1..]))
    else if s[0] == FESC then if |s| < 2 then None else ReadBody(s[2..], frame + [Unescaped(s[1])])
    else ReadBody(s[1..], frame + [s[0]])
  }

  /** Skips to a delimiter and reads one frame; None if the stream ends first. */
  function ReadOne(s: Bytes): (r: Option<Frame>)
    ensures r.Some? ==> |r.value.rest| < |s|
  {
    if s == [] then None else if s[0] == FEND then ReadBody(s[1..], []) else ReadOne(s[1..])
  }

  /** Every payload a reader gets out of a stream. */
  function ReadAll(s: Bytes): seq<Bytes>
    decreases |s|
  {
    match ReadOne(s)
    case None => []
    case Some(f) => [f.payload] + ReadAll(f.rest)
  }

  class ByteReader {
    var rest: Bytes

    constructor (s: Bytes)
      ensures rest == s
    {
      rest := s;
    }

    method ReadByte() returns (b: Option<Byte>)
      modifies this
      ensures if old(rest) == [] then b == None && rest == [] else b == Some(old(rest)[0]) && rest == old(rest)[1..]
    {
      if rest == [] { return None; }
      b := Some(rest[0]);
      rest := rest[1..];
    }

    /** Advances past the next delimiter. */
    method SkipToFrame() returns (found: bool)
      modifies this
      ensures found ==> ReadOne(old(rest)) == ReadBody(rest, [])
      ensures !found ==> ReadOne(old(rest)) == None && rest == []
    {
      while true
        invariant ReadOne(rest) == ReadOne(old(rest))
        decreases |rest|
      {
        var b := ReadByte();
        if b.None? { return false; }
        if b.value == FEND { return true; }
      }
    }

    method ReadFrame() returns (payload: Option<Bytes>)
      modifies this
      ensures match ReadOne(old(rest)) {
        case None => payload == None && rest == []
        case Some(f) => payload == Some(f.payload) && rest == f.rest
      }
    {
      var found := SkipToFrame();
      if !found { return None; }
      var frame: Bytes := [];
      while true
        invariant ReadBody(rest, frame) == ReadOne(old(rest))
        decreases |rest|
      {
        var b := ReadByte();
        if b.None? { return None; }
        if b.value == FEND {
          if |frame| != 0 { return Some(frame[1..]); }
        } else if b.value == FESC {
          var n := ReadByte();
          if n.None? { return None; }
          if n.value == TFEND {
            frame := frame + [FEND];
          } else if n.value == TFESC {
            frame := frame + [FESC];
          } else {
            frame := frame + [n.value];
          }
        } else {
          frame := frame + [b.value];
        }
      }
    }
  }

  // ---- one frame ------------------------------------------------------------------------------

  lemma ReadEscapedByte(b: Byte, frame: Bytes, rest: Bytes)
    ensures ReadBody(EscapedByte(b) + rest, frame) == ReadBody(rest, frame + [b])
  {
    var s := EscapedByte(b) + rest;
    if b == FEND || b == FESC { assert s[2..] == rest; } else { assert s[1..] == rest; }
  }

  lemma {:induction false} ReadEscaped(p: Bytes, frame: Bytes, rest: Bytes)
    ensures ReadBody(Escaped(p) + rest, frame) == ReadBody(rest, frame + p)
  {
    if p == [] {
      assert Escaped(p) + rest == rest && frame + p == frame;
    } else {
      var tail := Escaped(p[1..]) + rest;
      assert Escaped(p) + rest == EscapedByte(p[0]) + tail;
      ReadEscapedByte(p[0], frame, tail);
      ReadEscaped(p[1..], frame + [p[0]], rest);
      assert frame + [p[0]] + p[1..] == frame + p;
    }
  }

  /** A frame's content reads back exactly, whatever follows it. */
  lemma ReadContent(p: Bytes, rest: Bytes)
    ensures ReadBody([CMD_DATA] + Escaped(p) + [FEND] + rest, []) == Some(Frame(p, rest))
  {
    var tail := Escaped(p) + ([FEND] + rest);
    var s := [CMD_DATA] + Escaped(p) + [FEND] + rest;
    assert s[0] == CMD_DATA && s[1..] == tail;
    assert [] + [CMD_DATA] == [CMD_DATA];
    ReadEscaped(p, [CMD_DATA], [FEND] + rest);
    assert ([FEND] + rest)[1..] == rest;
    assert ([CMD_DATA] + p)[1..] == p;
  }

  lemma {:induction false} ReadEncoded(p: Bytes, rest: Bytes)
    ensures ReadOne(Encoded(p) + rest) == Some(Frame(p, rest))
  {
    assert (Encoded(p) + rest)[1..] == [CMD_DATA] + Escaped(p) + [FEND] + rest;
    ReadContent(p, rest);
  }

  /** A stray delimiter before a frame is skipped. */
  lemma ReadAfterDelimiter(p: Bytes, rest: Bytes)
    ensures ReadOne([FEND] + (Encoded(p) + rest)) == Some(Frame(p, rest))
  {
    var s := Encoded(p) + rest;
    assert ([FEND] + s)[1..] == s;
    assert s[1..] == [CMD_DATA] + Escaped(p) + [FEND] + rest;
    ReadContent(p, rest);
  }

  lemma {:induction false} SkipsGarbage(x: Bytes, rest: Bytes)
    requires FEND !in x
    ensures ReadOne(x + rest) == ReadOne(rest)
  {
    if x == [] {
      assert x + rest == rest;
    } else {
      assert (x + rest)[1..] == x[1..] + rest;
      SkipsGarbage(x[1..], rest);
    }
  }

  lemma {:induction false} NoRawDelimiter(p: Bytes)
    ensures FEND !in Escaped(p)
  {
    if p != [] { NoRawDelimiter(p[1..]); }
  }

  // ---- a stream of frames -----------------------------------------------------------------------

  function Stream(ps: seq<Bytes>): Bytes { if ps == [] then [] else Encoded(ps[0]) + Stream(ps[1..]) }

  /** Where the opening delimiter of frame i stands. */
  function Start(ps: seq<Bytes>, i: nat): nat
    requires i <= |ps|
  {
    if i == 0 then 0 else |Encoded(ps[0])| + Start(ps[1..], i - 1)
  }

  /** Reading a whole stream gives back the payloads. */
  lemma {:induction false} ReadsStream(ps: seq<Bytes>)
    ensures ReadAll(Stream(ps)) == ps
  {
    if ps != [] {
      ReadEncoded(ps[0], Stream(ps[1..]));
      ReadsStream(ps[1..]);
    }
  }

  /** A reader that starts on a closing delimiter gets every later frame. */
  lemma ReadsFromDelimiter(ps: seq<Bytes>)
    ensures ReadAll([FEND] + Stream(ps)) == ps
  {
    if ps == [] {
      assert ([FEND] + Stream(ps))[1..] == [];
    } else {
      ReadAfterDelimiter(ps[0], Stream(ps[1..]));
      ReadsStream(ps[1..]);
    }
  }

  /** A reader that starts inside a frame loses that frame only. */
  lemma ReadsFromInside(p: Bytes, ps: seq<Bytes>, off: nat)
    requires 0 < off < |Encoded(p)|
    ensures ReadAll((Encoded(p) + Stream(ps))[off..]) == ps
  {
    var x := ([CMD_DATA] + Escaped(p))[off - 1..];
    InsideSuffix(p, Stream(ps), off);
    SkipsGarbage(x, [FEND] + Stream(ps));
    SameReading(x + ([FEND] + Stream(ps)), [FEND] + Stream(ps));
    ReadsFromDelimiter(ps);
  }

  lemma InsideSuffix(p: Bytes, rest: Bytes, off: nat)
    requires 0 < off < |Encoded(p)|
    ensures var x := ([CMD_DATA] + Escaped(p))[off - 1..];
      FEND !in x && (Encoded(p) + rest)[off..] == x + ([FEND] + rest)
  {
    var inner := [CMD_DATA] + Escaped(p);
    NoRawDelimiter(p);
    assert FEND !in inner;
    assert Encoded(p) == [FEND] + (inner + [FEND]);
    SuffixOf(inner, rest, off - 1);
    assert Encoded(p) + rest == [FEND] + (inner + [FEND] + rest);
    assert (Encoded(p) + rest)[off..] == (inner + [FEND] + rest)[off - 1..];
  }

  lemma SuffixOf(inner: Bytes, rest: Bytes, k: nat)
    requires k <= |inner|
    ensures (inner + [FEND] + rest)[k..] == inner[k..] + ([FEND] + rest)
  {
  }

  lemma SameReading(s: Bytes, t: Bytes)
    requires ReadOne(s) == ReadOne(t)
    ensures ReadAll(s) == ReadAll(t)
  {
  }

  /** Self-synchronisation: reading from any offset of a stream of frames yields exactly the
      payloads whose opening delimiter stands at or after that offset. */
  lemma {:induction false} SelfSynchronises(ps: seq<Bytes>, off: nat, k: nat)
    requires off <= |Stream(ps)| && k <= |ps| && (k > 0 ==> Start(ps, k - 1) < off)
    requires k < |ps| ==> off <= Start(ps, k)
    ensures ReadAll(Stream(ps)[off..]) == ps[k..]
  {
    if off == 0 {
      assert Stream(ps)[0..] == Stream(ps) && ps[0..] == ps;
      ReadsStream(ps);
    } else {
      var first := |Encoded(ps[0])|;
      assert Start(ps, 1) == first + Start(ps[1..], 0);
      if off < first {
        ReadsFromInside(ps[0], ps[1..], off);
      } else {
        assert Stream(ps)[off..] == Stream(ps[1..])[off - first..];
        SelfSynchronises(ps[1..], off - first, k - 1);
      }
    }
  }

  // ---- noise ------------------------------------------------------------------------------------

  /** What a reader gets that is already inside a frame. */
  function ReadAllFrom(s: Bytes, frame: Bytes): seq<Bytes> {
    match ReadBody(s, frame)
    case None => []
    case Some(f) => [f.payload] + ReadAll(f.rest)
  }

  /** ps, possibly without its first element. */
  function Kept(ps: seq<Bytes>, lost: bool): seq<Bytes> { if lost && ps != [] then ps[1..] else ps }

  /** A reader inside a frame when the next good frame begins takes its opening delimiter for a
      closing one, and is back in step at the frame after. */
  lemma NoiseEndsInFrame(frame: Bytes, ps: seq<Bytes>) returns (x: seq<Bytes>, lost: bool)
    ensures ReadAllFrom(Stream(ps), frame) == x + Kept(ps, lost)
  {
    if ps == [] { return [], false; }
    var s := Stream(ps);
    if frame == [] {
      assert s[1..] == [CMD_DATA] + Escaped(ps[0]) + [FEND] + Stream(ps[1..]);
      ReadContent(ps[0], Stream(ps[1..]));
      ReadsStream(ps[1..]);
      return [], false;
    }
    assert s[1..] == (Encoded(ps[0]) + Stream(ps[1..]))[1..];
    ReadsFromInside(ps[0], ps[1..], 1);
    return [frame[1..]], true;
  }

  /** A dangling escape swallows the opening delimiter, and with it the frame. */
  lemma NoiseEndsInEscape(frame: Bytes, ps: seq<Bytes>) returns (x: seq<Bytes>, lost: bool)
    ensures ReadAllFrom([FESC] + Stream(ps), frame) == x + Kept(ps, lost)
  {
    if ps == [] { return [], false; }
    EscapeSwallows(ps[0], frame, Stream(ps[1..]));
    ReadsStream(ps[1..]);
    return [(frame + [FEND] + [CMD_DATA] + ps[0])[1..]], true;
  }

  lemma EscapeSwallows(p: Bytes, frame: Bytes, rest: Bytes)
    ensures ReadBody([FESC] + (Encoded(p) + rest), frame) == Some(Frame((frame + [FEND] + [CMD_DATA] + p)[1..], rest))
  {
    var s, tail := [FESC] + (Encoded(p) + rest), [CMD_DATA] + (Escaped(p) + ([FEND] + rest));
    assert s[0] == FESC && s[1] == FEND && s[2..] == tail;
    ReadSwallowed(p, frame + [FEND], rest);
  }

  lemma ReadSwallowed(p: Bytes, frame: Bytes, rest: Bytes)
    ensures ReadBody([CMD_DATA] + (Escaped(p) + ([FEND] + rest)), frame) ==
            Some(Frame((frame + [CMD_DATA] + p)[1..], rest))
  {
    var tail := Escaped(p) + ([FEND] + rest);
    assert ([CMD_DATA] + tail)[1..] == tail;
    ReadEscaped(p, frame + [CMD_DATA], [FEND] + rest);
    assert ([FEND] + rest)[1..] == rest;
  }

  lemma {:induction false} NoiseInFrame(g: Bytes, frame: Bytes, ps: seq<Bytes>) returns (x: seq<Bytes>, lost: bool)
    ensures ReadAllFrom(g + Stream(ps), frame) == x + Kept(ps, lost)
    decreases |g|
  {
    var s := g + Stream(ps);
    if g == [] {
      assert s == Stream(ps);
      x, lost := NoiseEndsInFrame(frame, ps);
    } else if g[0] == FESC {
      if |g| == 1 {
        assert g == [FESC];
        x, lost := NoiseEndsInEscape(frame, ps);
      } else {
        assert s[2..] == g[2..] + Stream(ps);
        x, lost := NoiseInFrame(g[2..], frame + [Unescaped(g[1])], ps);
      }
    } else {
      assert s[1..] == g[1..] + Stream(ps);
      if g[0] != FEND {
        x, lost := NoiseInFrame(g[1..], frame + [g[0]], ps);
      } else if frame == [] {
        x, lost := NoiseInFrame(g[1..], frame, ps);
      } else {
        x, lost := NoiseCostsAtMostOne(g[1..], ps);
        x := [frame[1..]] + x;
      }
    }
  }

  /** After any noise whatsoever, a reader gets every frame that follows, except at most the
      first. */
  lemma {:induction false} NoiseCostsAtMostOne(g: Bytes, ps: seq<Bytes>) returns (x: seq<Bytes>, lost: bool)
    ensures ReadAll(g + Stream(ps)) == x + Kept(ps, lost)
    decreases |g|
  {
    var s := g + Stream(ps);
    if g == [] {
      assert s == Stream(ps);
      ReadsStream(ps);
      return [], false;
    }
    assert s[1..] == g[1..] + Stream(ps);
    if g[0] == FEND {
      x, lost := NoiseInFrame(g[1..], [], ps);
    } else {
      x, lost := NoiseCostsAtMostOne(g[1..], ps);
      SameReading(s, s[1..]);
    }
  }
}
