/**
 * The audio side of ASRClient: samples are buffered and cut into frames of
 * exactly 1280 samples (80 ms at 16 kHz), and each frame is converted to
 * signed 16-bit PCM. Samples are reals: rounding of the floating-point
 * products is not modelled, only the clamp, the asymmetric scaling, the
 * truncation and the wrap-around of an Int16Array store.
 */
module Audio {
  /** `targetChunk` */
  const FrameSize: nat := 1280

  function RealMin(a: real, b: real): real { if a <= b then a else b }
  function RealMax(a: real, b: real): real { if a >= b then a else b }

  /** `Math.max(-1, Math.min(1, x))` */
  function Clamp(x: real): (s: real)
    ensures -1.0 <= s <= 1.0
    ensures -1.0 <= x <= 1.0 ==> s == x
    ensures x < -1.0 ==> s == -1.0
    ensures x > 1.0 ==> s == 1.0
  {
    RealMax(-1.0, RealMin(1.0, x))
  }

  /** `s < 0 ? s * 0x8000 : s * 0x7fff`: negative samples scale by 32768, the rest by 32767. */
  function Scale(s: real): (v: real)
    requires -1.0 <= s <= 1.0
    ensures -32768.0 <= v <= 32767.0
    ensures v < 0.0 <==> s < 0.0
  {
    if s < 0.0 then s * 32768.0 else s * 32767.0
  }

  /** Truncation toward zero, which a store into an integer typed array performs. */
  function Truncate(r: real): (n: int)
    ensures r >= 0.0 ==> 0 <= n && n as real <= r < n as real + 1.0
    ensures r < 0.0 ==> n <= 0 && n as real - 1.0 < r <= n as real
  {
    if r >= 0.0 then r.Floor else -((-r).Floor)
  }

  /** ToInt16: the integer taken modulo 2^16 into [-32768, 32767]. */
  function ToInt16(n: int): (v: int)
    ensures -32768 <= v <= 32767
    ensures -32768 <= n <= 32767 ==> v == n
  {
    (n + 32768) % 65536 - 32768
  }

  /** The PCM value stored for one sample. */
  function Pcm16(x: real): (v: int)
    ensures -32768 <= v <= 32767
  {
    ToInt16(Truncate(Scale(Clamp(x))))
  }

  /** The stored value is the truncated scaled sample (the wrap never takes
      effect), lies in the 16-bit range, and keeps the clamped sample's sign;
      a negative sample in (-1/32768, 0) truncates to 0. */
  lemma Pcm16Range(x: real)
    ensures Pcm16(x) == Truncate(Scale(Clamp(x)))
    ensures -32768 <= Pcm16(x) <= 32767
    ensures Pcm16(x) < 0 ==> Clamp(x) < 0.0
    ensures Pcm16(x) > 0 ==> Clamp(x) > 0.0
    ensures Clamp(x) <= -1.0 / 32768.0 ==> Pcm16(x) < 0
    ensures Clamp(x) >= 1.0 / 32767.0 ==> Pcm16(x) > 0
  {
    var s := Clamp(x);
    var v := Scale(s);
    var n := Truncate(v);
    assert -32768 <= n <= 32767 by {
      if v >= 0.0 {
        assert n as real <= v <= 32767.0;
      } else {
        assert -32768.0 <= v <= n as real;
      }
    }
    if s <= -1.0 / 32768.0 {
      assert v <= -1.0;
    }
    if s >= 1.0 / 32767.0 {
      assert v >= 1.0;
    }
  }

  /** The endpoints of the sample range map to the ends of the 16-bit range. */
  lemma Pcm16Endpoints()
    ensures Pcm16(1.0) == 32767 && Pcm16(-1.0) == -32768 && Pcm16(0.0) == 0
    ensures Pcm16(2.5) == 32767 && Pcm16(-7.0) == -32768
  {
    assert Truncate(32767.0) == 32767;
    assert Truncate(-32768.0) == -32768;
  }

  /** The Int16Array filled for one chunk. */
  function EncodeFrame(chunk: seq<real>): (pcm: seq<int>)
    ensures |pcm| == |chunk|
    ensures forall j :: 0 <= j < |pcm| ==> -32768 <= pcm[j] <= 32767
  {
    seq(|chunk|, j requires 0 <= j < |chunk| => Pcm16(chunk[j]))
  }

  /** `const pcm = new Int16Array(chunk.length)` and the loop that fills it. */
  method EncodeChunk(chunk: seq<real>) returns (pcm: seq<int>)
    ensures pcm == EncodeFrame(chunk)
  {
    var a := new int[|chunk|];
    for j := 0 to |chunk|
      invariant forall k :: 0 <= k < j ==> a[k] == Pcm16(chunk[k])
    {
      a[j] := Pcm16(chunk[j]);
    }
    pcm := a[..];
  }

  // ---------------------------------------------------------------------
  // Framing

  /** The full frames cut from the front of `s`, in order. */
  function Frames(s: seq<real>): (r: seq<seq<real>>)
    // no frame before 1280 samples have arrived; the first frame is the first 1280 samples
    ensures r == [] <==> |s| < FrameSize
    ensures r != [] ==> r[0] == s[..FrameSize]
    decreases |s|
  {
    if |s| < FrameSize then [] else [s[..FrameSize]] + Frames(s[FrameSize..])
  }

  /** One frame per full 1280 samples, each of exactly 1280 samples. */
  lemma {:induction false} FramesShape(s: seq<real>)
    ensures |Frames(s)| == |s| / FrameSize
    ensures forall i :: 0 <= i < |Frames(s)| ==> |Frames(s)[i]| == FrameSize
    decreases |s|
  {
    if |s| >= FrameSize {
      FramesShape(s[FrameSize..]);
      var fs := Frames(s);
      assert fs == [s[..FrameSize]] + Frames(s[FrameSize..]);
      assert forall i :: 1 <= i < |fs| ==> fs[i] == Frames(s[FrameSize..])[i - 1];
    }
  }

  /** What stays buffered after the full frames are cut from `s`. */
  function Leftover(s: seq<real>): (r: seq<real>)
    ensures |r| < FrameSize
    decreases |s|
  {
    if |s| < FrameSize then s else Leftover(s[FrameSize..])
  }

  function Flatten(fs: seq<seq<real>>): seq<real>
    decreases |fs|
  {
    if fs == [] then [] else fs[0] + Flatten(fs[1..])
  }

  /** Frames and leftover together are exactly the input: nothing is lost,
      duplicated or reordered. */
  lemma {:induction false} FramesReassemble(s: seq<real>)
    ensures Flatten(Frames(s)) + Leftover(s) == s
    ensures |Leftover(s)| == |s| % FrameSize
    decreases |s|
  {
    if |s| >= FrameSize {
      FramesReassemble(s[FrameSize..]);
      assert Frames(s) == [s[..FrameSize]] + Frames(s[FrameSize..]);
      assert Flatten(Frames(s)) == s[..FrameSize] + Flatten(Frames(s[FrameSize..]));
      assert s == s[..FrameSize] + s[FrameSize..];
    }
  }

  /** Framing `s + t` is framing `s`, then framing its leftover followed by `t`. */
  lemma {:induction false} FramesAppend(s: seq<real>, t: seq<real>)
    ensures Frames(s + t) == Frames(s) + Frames(Leftover(s) + t)
    ensures Leftover(s + t) == Leftover(Leftover(s) + t)
    decreases |s|
  {
    if |s| >= FrameSize {
      var rest := s[FrameSize..];
      assert (s + t)[..FrameSize] == s[..FrameSize];
      assert (s + t)[FrameSize..] == rest + t;
      FramesAppend(rest, t);
      assert Frames(s + t) == [s[..FrameSize]] + Frames(rest + t);
      assert Frames(s) == [s[..FrameSize]] + Frames(rest);
      assert Leftover(s) == Leftover(rest);
    } else {
      assert Frames(s) == [] && Leftover(s) == s;
      assert Frames(s) + Frames(Leftover(s) + t) == Frames(s + t);
    }
  }

  /** One more sample on a buffer below a frame completes a frame exactly
      when the buffer reaches FrameSize. */
  lemma FramesPushOne(buf: seq<real>, x: real)
    requires |buf| < FrameSize
    ensures |buf| + 1 == FrameSize ==> Frames(buf + [x]) == [buf + [x]] && Leftover(buf + [x]) == []
    ensures |buf| + 1 < FrameSize ==> Frames(buf + [x]) == [] && Leftover(buf + [x]) == buf + [x]
  {
    var s := buf + [x];
    if |s| == FrameSize {
      assert s[..FrameSize] == s;
      assert s[FrameSize..] == [];
    }
  }

  /** The sample blocks delivered one after another, concatenated. */
  function Samples(blocks: seq<seq<real>>): seq<real>
    decreases |blocks|
  {
    if blocks == [] then [] else Samples(blocks[..|blocks| - 1]) + blocks[|blocks| - 1]
  }

  /** The frames sent and the buffer kept when `blocks` arrive one by one on
      buffer `buf`, each call framing its own block. */
  function RunBlocks(buf: seq<real>, blocks: seq<seq<real>>): (seq<seq<real>>, seq<real>)
    decreases |blocks|
  {
    if blocks == [] then ([], buf)
    else
      var (fs, rest) := RunBlocks(buf, blocks[..|blocks| - 1]);
      var last := rest + blocks[|blocks| - 1];
      (fs + Frames(last), Leftover(last))
  }

  /** How the producer chunks the samples makes no difference: per-block
      framing sends the frames of the whole stream and keeps its leftover. */
  lemma {:induction false} ChunkingIrrelevant(buf: seq<real>, blocks: seq<seq<real>>)
    requires |buf| < FrameSize
    ensures RunBlocks(buf, blocks) == (Frames(buf + Samples(blocks)), Leftover(buf + Samples(blocks)))
    decreases |blocks|
  {
    if blocks == [] {
      assert buf + [] == buf;
    } else {
      var init := blocks[..|blocks| - 1];
      var b := blocks[|blocks| - 1];
      ChunkingIrrelevant(buf, init);
      var s := buf + Samples(init);
      FramesAppend(s, b);
      assert buf + Samples(blocks) == s + b;
    }
  }

  /** 3200 samples in any chunking: two frames, 640 samples kept. */
  lemma ExampleTwoFramesKept(blocks: seq<seq<real>>)
    requires |Samples(blocks)| == 3200
    ensures |RunBlocks([], blocks).0| == 2
    ensures |RunBlocks([], blocks).1| == 640
  {
    ChunkingIrrelevant([], blocks);
    assert [] + Samples(blocks) == Samples(blocks);
    FramesShape(Samples(blocks));
    FramesReassemble(Samples(blocks));
  }
}
