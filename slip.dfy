/** SLIP framing (RFC 1055) as in core/RP2350/src/slip.py: the encoder
    wraps a payload between two END bytes and escapes END and ESC inside
    it; the decoder is fed chunks of a byte stream and returns the frames
    completed so far. */
module Slip {
  import opened Wrappers
  import opened Bytes

  const END: byte := 0xC0
  const ESC: byte := 0xDB
  const ESC_END: byte := 0xDC
  const ESC_ESC: byte := 0xDD

  // ---------------------------------------------------------------------
  // Encoder

  /** The escape sequence that stands for one payload byte. */
  function EscByte(b: byte): bytes
  {
    if b == END then [ESC, ESC_END] else if b == ESC then [ESC, ESC_ESC] else [b]
  }

  /** The payload with every END and ESC escaped. */
  function Escape(p: bytes): bytes
    decreases |p|
  {
    if p == [] then [] else Escape(p[..|p| - 1]) + EscByte(p[|p| - 1])
  }

  /** The whole frame `encode` produces. */
  function Frame(p: bytes): bytes
  {
    [END] + Escape(p) + [END]
  }

  lemma EscapeSnoc(p: bytes, b: byte)
    ensures Escape(p + [b]) == Escape(p) + EscByte(b)
  {
    assert (p + [b])[..|p|] == p;
  }

  /** An escaped payload never holds END, so the frame's two END bytes are
      its only ones; and it is at most twice as long as the payload, so
      the `2 * n + 2` bytes `encode` allocates are enough. */
  lemma {:induction false} EscapeShape(p: bytes)
    ensures END !in Escape(p)
    ensures |p| <= |Escape(p)| <= 2 * |p|
    decreases |p|
  {
    if p != [] {
      EscapeShape(p[..|p| - 1]);
    }
  }

  /** `_slip_encode_core`: the escaped payload is written into `out` from
      index 1 on, and the index just past it is returned. */
  method EncodeCore(payload: bytes, out: array<byte>) returns (j: nat)
    requires out.Length >= 2 * |payload| + 1
    modifies out
    ensures j == 1 + |Escape(payload)| && j <= 2 * |payload| + 1
    ensures out[1..j] == Escape(payload) && out[0] == old(out[0])
  {
    var i := 0;
    j := 1;
    while i < |payload|
      invariant 0 <= i <= |payload| && j == 1 + |Escape(payload[..i])| && j <= 2 * i + 1
      invariant out[1..j] == Escape(payload[..i]) && out[0] == old(out[0])
    {
      var b := payload[i];
      ghost var before := out[1..j];
      EscapeSnoc(payload[..i], b);
      assert payload[..i + 1] == payload[..i] + [b];
      j := EncodeByte(out, j, b, before);
      i := i + 1;
    }
    assert payload[..i] == payload;
  }

  /** One turn of the `_slip_encode_core` loop: the escape sequence of `b`
      is written at `j`, after the bytes already written from index 1. */
  method EncodeByte(out: array<byte>, j: nat, b: byte, ghost before: bytes) returns (next: nat)
    requires 1 <= j && j + 2 <= out.Length && out[1..j] == before
    modifies out
    ensures next == j + |EscByte(b)| && out[1..next] == before + EscByte(b)
    ensures out[0] == old(out[0])
  {
    if b == END {
      out[j] := ESC;
      out[j + 1] := ESC_END;
      next := j + 2;
    } else if b == ESC {
      out[j] := ESC;
      out[j + 1] := ESC_ESC;
      next := j + 2;
    } else {
      out[j] := b;
      next := j + 1;
    }
    assert out[1..next] == out[1..j] + out[j..next];
  }

  /** `SlipEncoder.encode`: END, the escaped payload, END. */
  method Encode(payload: bytes) returns (r: bytes)
    ensures r == Frame(payload)
  {
    var out := new byte[2 * |payload| + 2];
    out[0] := END;
    var actualLen := EncodeCore(payload, out);
    out[actualLen] := END;
    r := out[..actualLen + 1];
    assert r == [out[0]] + out[1..actualLen] + [out[actualLen]];
  }

  // ---------------------------------------------------------------------
  // Decoder

  /** The decoder's fields: the frame collected so far, whether the last
      byte was ESC, and whether an END has opened a frame. */
  datatype DecoderState = DecoderState(buf: bytes, escaped: bool, inFrame: bool)

  /** A new or reset decoder. */
  const Idle := DecoderState([], false, false)

  /** Outside a frame nothing is collected. */
  predicate Clean(s: DecoderState)
  {
    !s.inFrame ==> s.buf == []
  }

  function Frames(f: Option<bytes>): seq<bytes>
  {
    if f.Some? then [f.value] else []
  }

  /** One byte of `feed` as written: after ESC, the escaped byte is added
      to the frame even when no frame is open. */
  function StepAsWritten(s: DecoderState, b: byte): (DecoderState, Option<bytes>)
  {
    if s.escaped then
      if b == ESC_END then (s.(buf := s.buf + [END], escaped := false), None)
      else if b == ESC_ESC then (s.(buf := s.buf + [ESC], escaped := false), None)
      else (Idle, None)
    else if b == ESC then (s.(escaped := true), None)
    else if b == END then
      if s.inFrame then (DecoderState([], s.escaped, false), Some(s.buf)) else (s.(inFrame := true), None)
    else if s.inFrame then (s.(buf := s.buf + [b]), None)
    else (s, None)
  }

  /** One byte of `feed`, with an escaped byte outside a frame dropped like
      any other byte outside a frame. */
  function Step(s: DecoderState, b: byte): (DecoderState, Option<bytes>)
  {
    if s.escaped then
      if b == ESC_END then (s.(buf := if s.inFrame then s.buf + [END] else s.buf, escaped := false), None)
      else if b == ESC_ESC then (s.(buf := if s.inFrame then s.buf + [ESC] else s.buf, escaped := false), None)
      else (Idle, None)
    else if b == ESC then (s.(escaped := true), None)
    else if b == END then
      if s.inFrame then (DecoderState([], s.escaped, false), Some(s.buf)) else (s.(inFrame := true), None)
    else if s.inFrame then (s.(buf := s.buf + [b]), None)
    else (s, None)
  }

  /** Feeding a whole chunk: the state after it and the frames it
      completed, in order. */
  function Run(s: DecoderState, chunk: bytes): (DecoderState, seq<bytes>)
    decreases |chunk|
  {
    if chunk == [] then (s, [])
    else
      var (s1, f) := Step(s, chunk[0]);
      var (s2, fs) := Run(s1, chunk[1..]);
      (s2, Frames(f) + fs)
  }

  /** The same for the as-written step. */
  function RunAsWritten(s: DecoderState, chunk: bytes): (DecoderState, seq<bytes>)
    decreases |chunk|
  {
    if chunk == [] then (s, [])
    else
      var (s1, f) := StepAsWritten(s, chunk[0]);
      var (s2, fs) := RunAsWritten(s1, chunk[1..]);
      (s2, Frames(f) + fs)
  }

  /** How a stream is cut into chunks does not matter: feeding `a` and then
      `b` gives the state and the frames of feeding `a + b`. */
  lemma {:induction false} RunConcat(s: DecoderState, a: bytes, b: bytes)
    ensures Run(s, a + b) == (Run(Run(s, a).0, b).0, Run(s, a).1 + Run(Run(s, a).0, b).1)
    decreases |a|
  {
    if a == [] {
      assert a + b == b;
      assert Run(s, a) == (s, []);
      assert [] + Run(s, b).1 == Run(s, b).1;
    } else {
      assert (a + b)[0] == a[0] && (a + b)[1..] == a[1..] + b;
      var (s1, f) := Step(s, a[0]);
      RunConcat(s1, a[1..], b);
      var m := Run(s1, a[1..]);
      var e := Run(m.0, b);
      assert Run(s, a) == (m.0, Frames(f) + m.1);
      assert Run(s, a + b) == (e.0, Frames(f) + (m.1 + e.1));
      assert Frames(f) + (m.1 + e.1) == (Frames(f) + m.1) + e.1;
    }
  }

  /** The step keeps a decoder clean. */
  lemma StepClean(s: DecoderState, b: byte)
    requires Clean(s)
    ensures Clean(Step(s, b).0)
  {
  }

  lemma RunOne(s: DecoderState, c: byte)
    ensures Run(s, [c]) == (Step(s, c).0, Frames(Step(s, c).1))
  {
    assert [c][1..] == [];
    assert Frames(Step(s, c).1) + [] == Frames(Step(s, c).1);
  }

  lemma RunOneAsWritten(s: DecoderState, c: byte)
    ensures RunAsWritten(s, [c]) == (StepAsWritten(s, c).0, Frames(StepAsWritten(s, c).1))
  {
    assert [c][1..] == [];
    assert Frames(StepAsWritten(s, c).1) + [] == Frames(StepAsWritten(s, c).1);
  }

  /** Inside an open frame, the escape sequence of `b` adds `b`. */
  lemma RunEscByte(buf: bytes, b: byte)
    ensures Run(DecoderState(buf, false, true), EscByte(b)) == (DecoderState(buf + [b], false, true), [])
  {
    var e := EscByte(b);
    var open := DecoderState(buf, false, true);
    if b == END || b == ESC {
      assert e == [e[0]] + [e[1]];
      RunConcat(open, [e[0]], [e[1]]);
      RunOne(open, e[0]);
      RunOne(open.(escaped := true), e[1]);
    } else {
      RunOne(open, b);
    }
  }

  lemma AsWrittenEscByte(buf: bytes, b: byte)
    ensures RunAsWritten(DecoderState(buf, false, true), EscByte(b)) == (DecoderState(buf + [b], false, true), [])
  {
    var e := EscByte(b);
    var open := DecoderState(buf, false, true);
    if b == END || b == ESC {
      assert e == [e[0]] + [e[1]];
      AsWrittenConcat(open, [e[0]], [e[1]]);
      RunOneAsWritten(open, e[0]);
      RunOneAsWritten(open.(escaped := true), e[1]);
    } else {
      RunOneAsWritten(open, b);
    }
  }

  /** Inside an open frame, an escaped payload is collected byte for byte. */
  lemma {:induction false} RunEscaped(buf: bytes, p: bytes)
    ensures Run(DecoderState(buf, false, true), Escape(p)) == (DecoderState(buf + p, false, true), [])
    decreases |p|
  {
    if p == [] {
      assert buf + p == buf;
    } else {
      var q := p[..|p| - 1];
      var b := p[|p| - 1];
      assert p == q + [b];
      var eq, eb := Escape(q), EscByte(b);
      assert Escape(p) == eq + eb;
      RunEscaped(buf, q);
      RunEscByte(buf + q, b);
      RunConcat(DecoderState(buf, false, true), eq, eb);
      BytesAssoc(buf, q, [b]);
    }
  }

  lemma {:induction false} AsWrittenEscaped(buf: bytes, p: bytes)
    ensures RunAsWritten(DecoderState(buf, false, true), Escape(p)) == (DecoderState(buf + p, false, true), [])
    decreases |p|
  {
    if p == [] {
      assert buf + p == buf;
    } else {
      var q := p[..|p| - 1];
      var b := p[|p| - 1];
      assert p == q + [b];
      var eq, eb := Escape(q), EscByte(b);
      assert Escape(p) == eq + eb;
      AsWrittenEscaped(buf, q);
      AsWrittenEscByte(buf + q, b);
      AsWrittenConcat(DecoderState(buf, false, true), eq, eb);
      BytesAssoc(buf, q, [b]);
    }
  }

  /** A frame fed to a decoder that is outside a frame, not escaped and
      holds `buf`: the decoder ends idle, with one frame `buf + p`. */
  lemma FrameFrom(buf: bytes, p: bytes)
    ensures Run(DecoderState(buf, false, false), Frame(p)) == (Idle, [buf + p])
  {
    var start := DecoderState(buf, false, false);
    var open := DecoderState(buf, false, true);
    var x := Escape(p) + [END];
    assert Frame(p) == [END] + x;
    RunOne(start, END);
    assert Run(start, [END]) == (open, []);
    RunConcat(start, [END], x);
    assert Run(start, Frame(p)) == (Run(open, x).0, [] + Run(open, x).1);
    RunEscaped(buf, p);
    RunConcat(open, Escape(p), [END]);
    var full := DecoderState(buf + p, false, true);
    RunOne(full, END);
    assert Run(full, [END]) == (Idle, [buf + p]);
    assert Run(open, x) == (Idle, [] + [buf + p]);
    assert [] + [buf + p] == [buf + p];
  }

  lemma AsWrittenFrameFrom(buf: bytes, p: bytes)
    ensures RunAsWritten(DecoderState(buf, false, false), Frame(p)) == (Idle, [buf + p])
  {
    var start := DecoderState(buf, false, false);
    var open := DecoderState(buf, false, true);
    var x := Escape(p) + [END];
    assert Frame(p) == [END] + x;
    RunOneAsWritten(start, END);
    assert RunAsWritten(start, [END]) == (open, []);
    AsWrittenConcat(start, [END], x);
    assert RunAsWritten(start, Frame(p)) == (RunAsWritten(open, x).0, [] + RunAsWritten(open, x).1);
    AsWrittenEscaped(buf, p);
    AsWrittenConcat(open, Escape(p), [END]);
    var full := DecoderState(buf + p, false, true);
    RunOneAsWritten(full, END);
    assert RunAsWritten(full, [END]) == (Idle, [buf + p]);
    assert RunAsWritten(open, x) == (Idle, [] + [buf + p]);
    assert [] + [buf + p] == [buf + p];
  }

  /** `decode(encode(p))`: a frame fed to an idle decoder comes back as
      exactly one frame holding `p`, and the decoder is idle again. */
  lemma RoundTrip(p: bytes)
    ensures Run(Idle, Frame(p)) == (Idle, [p])
  {
    FrameFrom([], p);
    assert [] + p == p;
  }

  /** Frames sent back to back come back one by one, in order. */
  lemma RoundTripTwo(p: bytes, q: bytes)
    ensures Run(Idle, Frame(p) + Frame(q)) == (Idle, [p, q])
  {
    RunConcat(Idle, Frame(p), Frame(q));
    RoundTrip(p);
    RoundTrip(q);
    assert [p] + [q] == [p, q];
  }

  /** An invalid escape resynchronises: whatever the decoder held, the
      next frame is received intact. */
  lemma Resync(s: DecoderState, x: byte, p: bytes)
    requires !s.escaped && x != ESC_END && x != ESC_ESC
    ensures Run(s, [ESC, x] + Frame(p)) == (Idle, [p])
  {
    assert [ESC, x] == [ESC] + [x];
    RunConcat(s, [ESC], [x]);
    RunOne(s, ESC);
    RunOne(s.(escaped := true), x);
    assert Run(s, [ESC, x]) == (Idle, [] + []);
    RunConcat(s, [ESC, x], Frame(p));
    RoundTrip(p);
    assert ([] + []) + [p] == [p];
  }

  /** The corrected decoder drops an escaped byte seen outside a frame:
      `DB DC` followed by an encoded `p` yields `p`. */
  lemma EscapeOutsideDropped(p: bytes)
    ensures Run(Idle, [ESC, ESC_END] + Frame(p)) == (Idle, [p])
  {
    assert [ESC, ESC_END] == [ESC] + [ESC_END];
    RunConcat(Idle, [ESC], [ESC_END]);
    RunOne(Idle, ESC);
    RunOne(Idle.(escaped := true), ESC_END);
    assert Run(Idle, [ESC, ESC_END]) == (Idle, [] + []);
    RunConcat(Idle, [ESC, ESC_END], Frame(p));
    RoundTrip(p);
    assert ([] + []) + [p] == [p];
  }

  /** The as-written decoder lets an escaped byte seen before any frame
      into the next frame: `DB DC` followed by an encoded `p` yields
      `C0 + p`. */
  lemma AsWrittenLeaksEscape(p: bytes)
    ensures RunAsWritten(Idle, [ESC, ESC_END] + Frame(p)) == (Idle, [[END] + p])
  {
    assert [ESC, ESC_END] == [ESC] + [ESC_END];
    AsWrittenConcat(Idle, [ESC], [ESC_END]);
    RunOneAsWritten(Idle, ESC);
    RunOneAsWritten(Idle.(escaped := true), ESC_END);
    assert Idle.buf + [END] == [END];
    assert RunAsWritten(Idle, [ESC, ESC_END]) == (DecoderState([END], false, false), [] + []);
    AsWrittenConcat(Idle, [ESC, ESC_END], Frame(p));
    AsWrittenFrameFrom([END], p);
    assert ([] + []) + [[END] + p] == [[END] + p];
  }

  lemma {:induction false} AsWrittenConcat(s: DecoderState, a: bytes, b: bytes)
    ensures RunAsWritten(s, a + b)
         == (RunAsWritten(RunAsWritten(s, a).0, b).0, RunAsWritten(s, a).1 + RunAsWritten(RunAsWritten(s, a).0, b).1)
    decreases |a|
  {
    if a == [] {
      assert a + b == b;
      assert RunAsWritten(s, a) == (s, []);
      assert [] + RunAsWritten(s, b).1 == RunAsWritten(s, b).1;
    } else {
      assert (a + b)[0] == a[0] && (a + b)[1..] == a[1..] + b;
      var (s1, f) := StepAsWritten(s, a[0]);
      AsWrittenConcat(s1, a[1..], b);
      var m := RunAsWritten(s1, a[1..]);
      var e := RunAsWritten(m.0, b);
      assert RunAsWritten(s, a) == (m.0, Frames(f) + m.1);
      assert RunAsWritten(s, a + b) == (e.0, Frames(f) + (m.1 + e.1));
      assert Frames(f) + (m.1 + e.1) == (Frames(f) + m.1) + e.1;
    }
  }

  /** The decoder object. */
  class SlipDecoder {
    var buf: bytes
    var escaped: bool
    var inFrame: bool

    function State(): DecoderState
      reads this
    {
      DecoderState(buf, escaped, inFrame)
    }

    constructor ()
      ensures State() == Idle
    {
      buf := [];
      escaped := false;
      inFrame := false;
    }

    /** `reset`: drop any partial frame and escape. */
    method Reset()
      modifies this
      ensures State() == Idle
    {
      buf := [];
      escaped := false;
      inFrame := false;
    }

    /** One byte of the `feed` loop, returning the frame it completes. */
    method FeedByte(b: byte) returns (frame: Option<bytes>)
      modifies this
      ensures (State(), frame) == Step(old(State()), b)
    {
      frame := None;
      if escaped {
        if b == ESC_END {
          if inFrame {
            buf := buf + [END];
          }
        } else if b == ESC_ESC {
          if inFrame {
            buf := buf + [ESC];
          }
        } else {
          Reset();
          return;
        }
        escaped := false;
        return;
      }
      if b == ESC {
        escaped := true;
      } else if b == END {
        if inFrame {
          frame := Some(buf);
          buf := [];
          inFrame := false;
        } else {
          inFrame := true;
        }
      } else if inFrame {
        buf := buf + [b];
      }
    }

    /** `feed`: the frames the chunk completes, in order. */
    method Feed(chunk: bytes) returns (frames: seq<bytes>)
      modifies this
      ensures (State(), frames) == Run(old(State()), chunk)
    {
      ghost var s0 := State();
      frames := [];
      var i := 0;
      while i < |chunk|
        invariant 0 <= i <= |chunk|
        invariant (State(), frames) == Run(s0, chunk[..i])
      {
        RunConcat(s0, chunk[..i], [chunk[i]]);
        RunOne(State(), chunk[i]);
        assert chunk[..i + 1] == chunk[..i] + [chunk[i]];
        var frame := FeedByte(chunk[i]);
        frames := frames + Frames(frame);
        i := i + 1;
      }
      assert chunk[..i] == chunk;
    }
  }
}
