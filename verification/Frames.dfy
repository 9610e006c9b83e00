/** The length-prefixed framing of the byte stream, as a pure recursive parse. A frame is a
    four-byte header (payload size, packet id) followed by the payload. */
module Frames {
  import opened Bytes

  const HEADER_SIZE := 4

  type Frame = seq<byte>

  /** Header plus payload, as declared by the first two bytes. */
  function DeclaredTotal(s: seq<byte>): nat
    requires HEADER_SIZE <= |s|
  {
    HEADER_SIZE + U16(s[0], s[1])
  }

  /** The length field is the first of the two little-endian fields of the header. */
  lemma LengthField(s: seq<byte>)
    requires 4 <= |s|
    ensures DeclaredTotal(s) == 4 + LittleEndian(s[..2])
  {
    U16IsLittleEndian(s[..2]);
  }

  /** A whole frame lies at the front of `s`. */
  predicate HasFrame(s: seq<byte>) {
    HEADER_SIZE <= |s| && DeclaredTotal(s) <= |s|
  }

  /** `f` is exactly one frame. */
  predicate IsFrame(f: seq<byte>) {
    HEADER_SIZE <= |f| && DeclaredTotal(f) == |f|
  }

  datatype Parsed = Parsed(frames: seq<Frame>, rest: seq<byte>)

  function Parse(s: seq<byte>): Parsed {
    if HasFrame(s) then
      var n := DeclaredTotal(s);
      var tail := Parse(s[n..]);
      Parsed([s[..n]] + tail.frames, tail.rest)
    else
      Parsed([], s)
  }

  /** What a framing of `s` is, said without the parser: frames, then a remainder that
      does not yet hold a whole frame. */
  ghost predicate IsFraming(frames: seq<Frame>, rest: seq<byte>, s: seq<byte>) {
    && s == Flatten(frames) + rest
    && (forall i :: 0 <= i < |frames| ==> IsFrame(frames[i]))
    && !HasFrame(rest)
  }

  lemma FramingCons(f: Frame, frames: seq<Frame>, rest: seq<byte>, s: seq<byte>)
    requires IsFrame(f) && IsFraming(frames, rest, s)
    ensures IsFraming([f] + frames, rest, f + s)
  {
    FlattenCons(f, frames);
    assert f + s == (f + Flatten(frames)) + rest;
  }

  lemma {:induction false} ParseIsFraming(s: seq<byte>)
    ensures IsFraming(Parse(s).frames, Parse(s).rest, s)
    decreases |s|
  {
    if HasFrame(s) {
      var n := DeclaredTotal(s);
      var f, s' := s[..n], s[n..];
      ParseIsFraming(s');
      FramingCons(f, Parse(s').frames, Parse(s').rest, s');
      assert s == f + s';
    } else {
      assert s == Flatten([]) + s;
    }
  }

  lemma {:induction false} FramingIsParse(frames: seq<Frame>, rest: seq<byte>)
    requires forall i :: 0 <= i < |frames| ==> IsFrame(frames[i])
    requires !HasFrame(rest)
    ensures Parse(Flatten(frames) + rest) == Parsed(frames, rest)
  {
    if frames == [] {
      assert Flatten(frames) + rest == rest;
    } else {
      var s, n := Flatten(frames) + rest, |frames[0]|;
      assert s == frames[0] + (Flatten(frames[1..]) + rest);
      assert s[..n] == frames[0] && s[n..] == Flatten(frames[1..]) + rest;
      FramingIsParse(frames[1..], rest);
    }
  }

  /** The parser finds the framing, and there is only one to find. */
  lemma ParseIsTheOnlyFraming(frames: seq<Frame>, rest: seq<byte>, s: seq<byte>)
    ensures IsFraming(frames, rest, s) <==> Parse(s) == Parsed(frames, rest)
  {
    ParseIsFraming(s);
    if IsFraming(frames, rest, s) {
      FramingIsParse(frames, rest);
    }
  }

  /** Parsing can stop at any byte and resume from the remainder. */
  lemma {:induction false} ParseResumes(s: seq<byte>, t: seq<byte>)
    ensures Parse(s + t).frames == Parse(s).frames + Parse(Parse(s).rest + t).frames
    ensures Parse(s + t).rest == Parse(Parse(s).rest + t).rest
    decreases |s|
  {
    if HasFrame(s) {
      var n := DeclaredTotal(s);
      assert (s + t)[..n] == s[..n];
      assert (s + t)[n..] == s[n..] + t;
      ParseResumes(s[n..], t);
    } else {
      assert Parse(s) == Parsed([], s);
    }
  }
}
