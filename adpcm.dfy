/**
 The IMA/DVI ADPCM decoder of the Xbox audio layer: 4-bit codes, each
 turned into a 16-bit sample by adding or subtracting a quantised step to a
 running predictor, with the step size walking an 89-entry table. Values are
 plain integers here; the source's int fields never overflow because every
 intermediate value stays within a few times 32767.
 */
module Adpcm {

  type Byte = b: int | 0 <= b < 256
  type Nibble = n: int | 0 <= n < 16

  /** Step-index adjustment per 4-bit code (the sign bit does not matter). */
  const INDEX_TABLE: seq<int> := [
    -1, -1, -1, -1, 2, 4, 6, 8,
    -1, -1, -1, -1, 2, 4, 6, 8
  ]

  /** Quantiser step sizes, indexed by the step index 0..88. */
  const STEPSIZE_TABLE: seq<nat> := [
    7, 8, 9, 10, 11, 12, 13, 14, 16, 17,
    19, 21, 23, 25, 28, 31, 34, 37, 41, 45,
    50, 55, 60, 66, 73, 80, 88, 97, 107, 118,
    130, 143, 157, 173, 190, 209, 230, 253, 279, 307,
    337, 371, 408, 449, 494, 544, 598, 658, 724, 796,
    876, 963, 1060, 1166, 1282, 1411, 1552, 1707, 1878, 2066,
    2272, 2499, 2749, 3024, 3327, 3660, 4026, 4428, 4871, 5358,
    5894, 6484, 7132, 7845, 8630, 9493, 10442, 11487, 12635, 13899,
    15289, 16818, 18500, 20350, 22385, 24623, 27086, 29794, 32767
  ]

  const MAX_STEP_INDEX := 88
  const SAMPLE_MIN := -32768
  const SAMPLE_MAX := 32767

  /** The per-channel decoder state (ADPCMState). */
  datatype ChannelState = ChannelState(predictor: int, stepIndex: int)

  /** The state every channel starts from and is reset to. */
  const INITIAL_STATE := ChannelState(0, 0)

  /** The predictor fits an int16 and the step index addresses STEPSIZE_TABLE. */
  predicate ValidState(s: ChannelState)
  {
    SAMPLE_MIN <= s.predictor <= SAMPLE_MAX && 0 <= s.stepIndex <= MAX_STEP_INDEX
  }

  /** Bit `k` of the code (the source's `nibble & (1 << k)`). */
  predicate Bit(n: Nibble, k: nat)
    requires k < 4
  {
    if k == 0 then n % 2 == 1
    else if k == 1 then (n / 2) % 2 == 1
    else if k == 2 then (n / 4) % 2 == 1
    else n / 8 == 1
  }

  /**
   The magnitude a code adds to or subtracts from the predictor: step/8,
   plus step, step/2 and step/4 for bits 2, 1 and 0 (shifts of a positive
   step are floor divisions).
   */
  function Magnitude(step: nat, n: Nibble): (d: nat)
    ensures d <= step / 8 + step + step / 2 + step / 4
  {
    step / 8
    + (if Bit(n, 2) then step else 0)
    + (if Bit(n, 1) then step / 2 else 0)
    + (if Bit(n, 0) then step / 4 else 0)
  }

  function Clamp16(x: int): (r: int)
    ensures SAMPLE_MIN <= r <= SAMPLE_MAX
    ensures SAMPLE_MIN <= x <= SAMPLE_MAX ==> r == x
  {
    if x > SAMPLE_MAX then SAMPLE_MAX else if x < SAMPLE_MIN then SAMPLE_MIN else x
  }

  function ClampIndex(i: int): (r: int)
    ensures 0 <= r <= MAX_STEP_INDEX
    ensures 0 <= i <= MAX_STEP_INDEX ==> r == i
  {
    if i < 0 then 0 else if i > MAX_STEP_INDEX then MAX_STEP_INDEX else i
  }

  /**
   What DecodeNibble does to one channel: bit 3 picks the direction, the
   predictor is clamped to int16 and the step index to 0..88.
   */
  function NibbleStep(s: ChannelState, n: Nibble): (r: ChannelState)
    requires ValidState(s)
    ensures ValidState(r)
    ensures n >= 8 ==> r.predictor <= s.predictor
    ensures n < 8 ==> r.predictor >= s.predictor
    ensures s.stepIndex - 1 <= r.stepIndex <= s.stepIndex + 8
  {
    var step := STEPSIZE_TABLE[s.stepIndex];
    var diff := Magnitude(step, n);
    var p := if Bit(n, 3) then s.predictor - diff else s.predictor + diff;
    ChannelState(Clamp16(p), ClampIndex(s.stepIndex + INDEX_TABLE[n]))
  }

  /**
   The decoded difference approximates (2m + 1)/8 of the step, where m is
   the code without its sign bit: it is never above it and falls short by
   less than 18/8 of a unit (the three truncating shifts).
   */
  lemma MagnitudeApproximates(step: nat, n: Nibble)
    ensures 8 * Magnitude(step, n) <= (2 * (n % 8) + 1) * step <= 8 * Magnitude(step, n) + 17
  {
    var m := n % 8;
    var b2, b1, b0 := Bit(n, 2), Bit(n, 1), Bit(n, 0);
    assert m == (if b2 then 4 else 0) + (if b1 then 2 else 0) + (if b0 then 1 else 0);
    assert step == 8 * (step / 8) + step % 8 && step == 2 * (step / 2) + step % 2 && step == 4 * (step / 4) + step % 4;
    var twice := (2 * m + 1) * step;
    if b2 && b1 && b0 { assert twice == 15 * step; }
    else if b2 && b1 { assert twice == 13 * step; }
    else if b2 && b0 { assert twice == 11 * step; }
    else if b2 { assert twice == 9 * step; }
    else if b1 && b0 { assert twice == 7 * step; }
    else if b1 { assert twice == 5 * step; }
    else if b0 { assert twice == 3 * step; }
    else { assert twice == step; }
  }

  /** The sign bit only picks the direction: the step-index walk ignores it. */
  lemma SignBitOnlyFlipsDirection(s: ChannelState, n: Nibble)
    requires ValidState(s) && n < 8
    ensures NibbleStep(s, n).stepIndex == NibbleStep(s, n + 8).stepIndex
    ensures Magnitude(STEPSIZE_TABLE[s.stepIndex], n) == Magnitude(STEPSIZE_TABLE[s.stepIndex], n + 8)
    ensures NibbleStep(s, n).predictor == Clamp16(s.predictor + Magnitude(STEPSIZE_TABLE[s.stepIndex], n))
    ensures NibbleStep(s, n + 8).predictor == Clamp16(s.predictor - Magnitude(STEPSIZE_TABLE[s.stepIndex], n))
  {
    var step := STEPSIZE_TABLE[s.stepIndex];
    LowBitsIgnoreSign(n);
    assert Magnitude(step, n) == Magnitude(step, n + 8);
    assert INDEX_TABLE[n] == INDEX_TABLE[n + 8];
  }

  /** Adding the sign bit leaves the three magnitude bits as they are. */
  lemma LowBitsIgnoreSign(n: Nibble)
    requires n < 8
    ensures Bit(n, 0) == Bit(n + 8, 0) && Bit(n, 1) == Bit(n + 8, 1) && Bit(n, 2) == Bit(n + 8, 2)
    ensures !Bit(n, 3) && Bit(n + 8, 3)
  {
  }

  // ---------------------------------------------------------------------------
  // The decode loop as a function

  /** Both channel states (state[0] and state[1]). */
  datatype Channels = Channels(left: ChannelState, right: ChannelState)

  predicate ValidChannels(ch: Channels)
  {
    ValidState(ch.left) && ValidState(ch.right)
  }

  /** The samples one Decode call produces, the states it leaves, the bytes it reads. */
  datatype Decoded = Decoded(samples: seq<int>, final: Channels, consumed: nat)

  /** The samples one byte yields and the states it leaves. */
  datatype ByteDecoded = ByteDecoded(out: seq<int>, next: Channels)

  function Min(a: nat, b: nat): nat
  {
    if a <= b then a else b
  }

  /**
   Decoding one byte with room for `room` more samples: the low code always
   goes to the left channel; when there is room for a second sample the high
   code goes to the right channel in stereo and to the left one in mono.
   */
  function DecodeByte(ch: Channels, stereo: bool, b: Byte, room: nat): (r: ByteDecoded)
    requires ValidChannels(ch) && room > 0
    ensures ValidChannels(r.next)
    ensures |r.out| == Min(room, 2)
    ensures !stereo ==> r.next.right == ch.right
  {
    var ch1 := ChannelStep(ch, 0, b % 16);
    if room == 1 then ByteDecoded([ch1.left.predictor], ch1)
    else
      var c := if stereo then 1 else 0;
      var ch2 := ChannelStep(ch1, c, b / 16);
      ByteDecoded([ch1.left.predictor, Channel(ch2, c).predictor], ch2)
  }

  /** Channel `c` of `ch`: 0 is the left (state[0]), 1 the right (state[1]). */
  function Channel(ch: Channels, c: nat): ChannelState
    requires c < 2
  {
    if c == 0 then ch.left else ch.right
  }

  /** `ch` with channel `c` replaced by `s`. */
  function WithChannel(ch: Channels, c: nat, s: ChannelState): Channels
    requires c < 2
  {
    if c == 0 then ch.(left := s) else ch.(right := s)
  }

  /** One code through channel `c`; the other channel is untouched. */
  function ChannelStep(ch: Channels, c: nat, n: Nibble): (r: Channels)
    requires ValidChannels(ch) && c < 2
    ensures ValidChannels(r)
  {
    WithChannel(ch, c, NibbleStep(Channel(ch, c), n))
  }

  /**
   Where the decode loop stands between two bytes: the samples produced so
   far, the bytes read so far, the channel states, the bytes left and the
   room left (in samples).
   */
  datatype Cursor = Cursor(done: seq<int>, read: nat, ch: Channels, rest: seq<Byte>, room: nat)

  /** The loop stops once no byte or no room is left. */
  predicate Stopped(c: Cursor)
  {
    |c.rest| == 0 || c.room == 0
  }

  /** One turn of the loop: the next byte is read and decoded, even when only its low code fits. */
  function Advance(stereo: bool, c: Cursor): (n: Cursor)
    requires ValidChannels(c.ch) && !Stopped(c)
    ensures n.read == c.read + 1 && n.rest == c.rest[1..] && ValidChannels(n.ch)
    ensures |n.done| == |c.done| + Min(c.room, 2) && n.room == c.room - Min(c.room, 2)
  {
    var d := DecodeByte(c.ch, stereo, c.rest[0], c.room);
    Cursor(c.done + d.out, c.read + 1, d.next, c.rest[1..], c.room - |d.out|)
  }

  /**
   The decode loop as a function of its state: turns until it stops. It
   yields two samples per byte while the room lasts, and reads one byte per
   two samples of room, rounding up.
   */
  function Drain(stereo: bool, c: Cursor): (r: Decoded)
    requires ValidChannels(c.ch)
    ensures |r.samples| == |c.done| + Min(c.room, 2 * |c.rest|)
    ensures r.consumed == c.read + Min(|c.rest|, (c.room + 1) / 2)
    ensures ValidChannels(r.final)
    ensures !stereo ==> r.final.right == c.ch.right
    decreases |c.rest|
  {
    if Stopped(c) then Decoded(c.done, c.ch, c.read)
    else Drain(stereo, Advance(stereo, c))
  }

  /**
   The loop, from `c` on, ends with `whole`. Method contracts state this
   rather than the equation itself, which keeps the recursive Drain inside
   folded until a proof step asks for it.
   */
  ghost predicate Heading(whole: Decoded, stereo: bool, c: Cursor)
  {
    ValidChannels(c.ch) && Drain(stereo, c) == whole
  }

  /** One turn of the loop does not change where it ends. */
  lemma HeadingAdvance(whole: Decoded, stereo: bool, c: Cursor)
    requires Heading(whole, stereo, c) && !Stopped(c)
    ensures Heading(whole, stereo, Advance(stereo, c))
  {
  }

  /** A whole decode of `bytes` from the channel states `ch` into at most `room` samples. */
  function Run(ch: Channels, stereo: bool, bytes: seq<Byte>, room: nat): (r: Decoded)
    requires ValidChannels(ch)
    ensures |r.samples| == Min(room, 2 * |bytes|)
    ensures r.consumed == Min(|bytes|, (room + 1) / 2)
    ensures ValidChannels(r.final)
    ensures !stereo ==> r.final.right == ch.right
  {
    Drain(stereo, Cursor([], 0, ch, bytes, room))
  }

  /** Every sample fits an int16. */
  predicate InRange(samples: seq<int>)
  {
    forall i :: 0 <= i < |samples| ==> SAMPLE_MIN <= samples[i] <= SAMPLE_MAX
  }

  /** The loop only ever appends int16 samples. */
  lemma {:induction false} DrainInRange(stereo: bool, c: Cursor)
    requires ValidChannels(c.ch) && InRange(c.done)
    ensures InRange(Drain(stereo, c).samples)
    decreases |c.rest|
  {
    if !Stopped(c) {
      var d := DecodeByte(c.ch, stereo, c.rest[0], c.room);
      var n := Advance(stereo, c);
      assert n.done == c.done + d.out;
      assert InRange(d.out);
      assert InRange(n.done);
      assert Drain(stereo, c) == Drain(stereo, n);
      DrainInRange(stereo, n);
    }
  }

  /** Every sample a decode produces fits an int16. */
  lemma RunInRange(ch: Channels, stereo: bool, bytes: seq<Byte>, room: nat)
    requires ValidChannels(ch)
    ensures InRange(Run(ch, stereo, bytes, room).samples)
  {
    DrainInRange(stereo, Cursor([], 0, ch, bytes, room));
  }

  lemma DropFirst(s: seq<Byte>, i: nat)
    requires i < |s|
    ensures s[i..][0] == s[i] && s[i..][1..] == s[i + 1..]
  {
  }

  /** Two sequences that agree from `i` on agree from any later `j` on. */
  lemma TailsAgree(a: seq<int>, b: seq<int>, i: nat, j: nat)
    requires i <= j <= |a| && |a| == |b| && a[i..] == b[i..]
    ensures a[j..] == b[j..]
  {
    assert a[j..] == a[i..][j - i..] && b[j..] == b[i..][j - i..];
  }

  /** Masking the shifted byte to four bits loses nothing. */
  lemma HighNibble(b: Byte)
    ensures 0 <= b / 16 < 16 && (b / 16) % 16 == b / 16
  {
    var h := b / 16;
    assert b == 16 * h + b % 16;
  }

  /** The codes of `bytes` in decoding order: low half first, then high half. */
  function Codes(bytes: seq<Byte>): (ns: seq<Nibble>)
    ensures |ns| == 2 * |bytes|
  {
    if bytes == [] then [] else [bytes[0] % 16, bytes[0] / 16] + Codes(bytes[1..])
  }

  /** Decoding a stream of codes through one channel: at most `room` samples. */
  function Stream(s: ChannelState, codes: seq<Nibble>, room: nat): (samples: seq<int>)
    requires ValidState(s)
    ensures |samples| == Min(room, |codes|)
    decreases |codes|
  {
    if codes == [] || room == 0 then []
    else
      var s' := NibbleStep(s, codes[0]);
      [s'.predictor] + Stream(s', codes[1..], room - 1)
  }

  /**
   In mono (the configuration the decoder is built with) the loop produces,
   after what it already has, the single-channel decode of the remaining
   codes in low-then-high order, cut at the room left.
   */
  lemma {:induction false} MonoDrainIsStream(c: Cursor)
    requires ValidChannels(c.ch)
    ensures Drain(false, c).samples == c.done + Stream(c.ch.left, Codes(c.rest), c.room)
    decreases |c.rest|
  {
    if Stopped(c) {
      assert Stream(c.ch.left, Codes(c.rest), c.room) == [];
      assert c.done + [] == c.done;
    } else {
      var b := c.rest[0];
      var more := Codes(c.rest[1..]);
      var d := DecodeByte(c.ch, false, b, c.room);
      var n := Advance(false, c);
      assert n.done == c.done + d.out && n.ch == d.next && n.room == c.room - |d.out|;
      assert Drain(false, c) == Drain(false, n);
      MonoDrainIsStream(n);
      MonoByteIsStream(c.ch, b, more, c.room);
      assert Codes(c.rest) == [b % 16, b / 16] + more;
      Associative(c.done, d.out, Stream(d.next.left, more, n.room));
    }
  }

  lemma Associative(a: seq<int>, b: seq<int>, c: seq<int>)
    ensures (a + b) + c == a + (b + c)
  {
  }

  /** A whole mono decode is the single-channel decode of the codes, cut at `room`. */
  lemma MonoRunIsStream(ch: Channels, bytes: seq<Byte>, room: nat)
    requires ValidChannels(ch)
    ensures Run(ch, false, bytes, room).samples == Stream(ch.left, Codes(bytes), room)
  {
    MonoDrainIsStream(Cursor([], 0, ch, bytes, room));
    assert [] + Stream(ch.left, Codes(bytes), room) == Stream(ch.left, Codes(bytes), room);
  }

  /** One byte of a mono decode is its two codes through the left channel. */
  lemma MonoByteIsStream(ch: Channels, b: Byte, more: seq<Nibble>, room: nat)
    requires ValidChannels(ch) && room > 0
    ensures var d := DecodeByte(ch, false, b, room);
      d.out + Stream(d.next.left, more, room - |d.out|) == Stream(ch.left, [b % 16, b / 16] + more, room)
  {
    var codes := [b % 16, b / 16] + more;
    var d := DecodeByte(ch, false, b, room);
    var s1 := NibbleStep(ch.left, b % 16);
    assert codes[0] == b % 16 && codes[1..] == [b / 16] + more;
    assert Stream(ch.left, codes, room) == [s1.predictor] + Stream(s1, codes[1..], room - 1);
    if room == 1 {
      assert d.out == [s1.predictor] && d.next.left == s1;
      assert Stream(s1, codes[1..], 0) == [] && Stream(s1, more, 0) == [];
    } else {
      var s2 := NibbleStep(s1, b / 16);
      var tail := Stream(s2, more, room - 2);
      assert d.out == [s1.predictor, s2.predictor] && d.next.left == s2;
      assert codes[1..][0] == b / 16 && codes[1..][1..] == more;
      assert Stream(s1, codes[1..], room - 1) == [s2.predictor] + tail;
      assert [s1.predictor] + ([s2.predictor] + tail) == [s1.predictor, s2.predictor] + tail;
    }
  }

  // ---------------------------------------------------------------------------
  // The decoder object

  class AdpcmDecoder {
    var data: seq<Byte>
    var dataSize: nat
    var currentPos: nat
    const sampleRate: nat
    var channels: nat
    const state: array<ChannelState>
    var initialized: bool

    /** The object invariant: two valid channel states, the cursor within the data. */
    ghost predicate Valid()
      reads this, state
    {
      state.Length == 2 && ValidState(state[0]) && ValidState(state[1])
      && dataSize == |data| && currentPos <= dataSize && (channels == 1 || channels == 2)
    }

    function States(): Channels
      reads this, state
      requires state.Length == 2
    {
      Channels(state[0], state[1])
    }

    /** No data, mono, 22050 Hz, both channels at the initial state. */
    constructor ()
      ensures Valid() && fresh(state)
      ensures data == [] && currentPos == 0 && channels == 1 && sampleRate == 22050 && !initialized
      ensures States() == Channels(INITIAL_STATE, INITIAL_STATE)
    {
      data, dataSize, currentPos := [], 0, 0;
      sampleRate, channels := 22050, 1;
      initialized := false;
      state := new ChannelState[2](_ => INITIAL_STATE);
    }

    /**
     Points the decoder at `adpcmData` and rewinds it, whatever the length;
     only inputs of at least four bytes are accepted. A rejected input does
     not clear an earlier success.
     */
    method Initialize(adpcmData: seq<Byte>) returns (ok: bool)
      requires Valid()
      modifies this
      ensures Valid() && States() == old(States())
      ensures data == adpcmData && currentPos == 0 && channels == old(channels)
      ensures ok <==> |adpcmData| >= 4
      ensures initialized == (old(initialized) || ok)
    {
      data := adpcmData;
      dataSize := |adpcmData|;
      currentPos := 0;
      if dataSize < 4 {
        return false;
      }
      initialized := true;
      ok := true;
    }

    /** Decodes one code through channel `c` and returns the new predictor. */
    method DecodeNibble(nibble: Nibble, c: nat) returns (sample: int)
      requires Valid() && c < 2
      modifies state
      ensures Valid()
      ensures state[c] == NibbleStep(old(state[c]), nibble) && state[1 - c] == old(state[1 - c])
      ensures sample == state[c].predictor && SAMPLE_MIN <= sample <= SAMPLE_MAX
    {
      var s := state[c];
      var step := STEPSIZE_TABLE[s.stepIndex];
      var diff := step / 8;
      if Bit(nibble, 2) { diff := diff + step; }
      if Bit(nibble, 1) { diff := diff + step / 2; }
      if Bit(nibble, 0) { diff := diff + step / 4; }
      assert diff == Magnitude(step, nibble);
      var predictor := s.predictor;
      if Bit(nibble, 3) {
        predictor := predictor - diff;
      } else {
        predictor := predictor + diff;
      }
      if predictor > SAMPLE_MAX {
        predictor := SAMPLE_MAX;
      } else if predictor < SAMPLE_MIN {
        predictor := SAMPLE_MIN;
      }
      var stepIndex := s.stepIndex + INDEX_TABLE[nibble];
      if stepIndex < 0 {
        stepIndex := 0;
      } else if stepIndex > MAX_STEP_INDEX {
        stepIndex := MAX_STEP_INDEX;
      }
      assert ChannelState(predictor, stepIndex) == NibbleStep(s, nibble);
      state[c] := ChannelState(predictor, stepIndex);
      sample := predictor;
    }

    /**
     The body of the decode loop: the byte's low code through the left
     channel into output[at], then, if output has room, its high code through
     the right (stereo) or left (mono) channel into output[at + 1].
     */
    method DecodeByteInto(byte: Byte, stereo: bool, output: array<int>, at: nat) returns (written: nat)
      requires Valid() && at < output.Length
      modifies state, output
      ensures Valid()
      ensures var d := DecodeByte(old(States()), stereo, byte, output.Length - at);
        && written == |d.out| && States() == d.next
        && output[..at + written] == old(output[..at]) + d.out
        && forall i :: at + written <= i < output.Length ==> output[i] == old(output[i])
    {
      ghost var d := DecodeByte(States(), stereo, byte, output.Length - at);
      var nibble1 := byte % 16;
      var nibble2 := (byte / 16) % 16;
      HighNibble(byte);
      ghost var ch := States();
      var sample := DecodeNibble(nibble1, 0);
      assert States() == ChannelStep(ch, 0, nibble1);
      output[at] := sample;
      written := 1;
      if at + 1 < output.Length {
        ghost var ch1 := States();
        sample := DecodeNibble(nibble2, if stereo then 1 else 0);
        assert States() == ChannelStep(ch1, if stereo then 1 else 0, nibble2);
        output[at + 1] := sample;
        written := 2;
      }
      assert output[..at + written] == old(output[..at]) + d.out;
    }

    /** Where the decode stands, for a caller that started at `base` and has written `at` samples. */
    ghost function Snapshot(output: array<int>, at: nat, base: nat): Cursor
      reads this, state, output
      requires state.Length == 2 && at <= output.Length && base <= currentPos <= |data|
    {
      Cursor(output[..at], currentPos - base, States(), data[currentPos..], output.Length - at)
    }

    /**
     One turn of the decode loop: reads the byte at the cursor, advances the
     cursor and decodes the byte into output[at..]. The loop's state moves
     on by one Advance, so where it ends up (`whole`) is unchanged, and the
     rest of `output` stays as it was in `orig`.
     */
    method DecodeStep(output: array<int>, at: nat, ghost base: nat, ghost whole: Decoded, ghost orig: seq<int>)
      returns (next: nat)
      requires Valid() && at < output.Length && base <= currentPos < dataSize
      requires Heading(whole, channels == 2, Snapshot(output, at, base))
      requires |orig| == output.Length && output[at..] == orig[at..]
      modifies this, state, output
      ensures Valid() && data == old(data) && channels == old(channels) && initialized == old(initialized)
      ensures currentPos == old(currentPos) + 1 && next == at + Min(output.Length - at, 2)
      ensures Heading(whole, channels == 2, Snapshot(output, next, base))
      ensures output[next..] == orig[next..]
    {
      ghost var c := Snapshot(output, at, base);
      ghost var pre := output[..];
      DropFirst(data, currentPos);
      var byte := data[currentPos];
      currentPos := currentPos + 1;
      var written := DecodeByteInto(byte, channels == 2, output, at);
      next := at + written;
      ghost var d := DecodeByte(c.ch, channels == 2, byte, c.room);
      assert output[..next] == c.done + d.out && States() == d.next;
      assert Snapshot(output, next, base) == Advance(channels == 2, c);
      HeadingAdvance(whole, channels == 2, c);
      TailsAgree(pre, orig, at, next);
    }

    /**
     Decodes from the cursor into `output`, the int16 view of a buffer of
     `bufferSize` bytes: as many samples as Run yields for the remaining
     data and bufferSize / 2 samples of room. Fails without effect when not
     initialized; otherwise succeeds iff a sample was produced.
     */
    method Decode(output: array<int>, bufferSize: nat) returns (ok: bool, decodedSize: nat)
      requires Valid() && output.Length == bufferSize / 2
      modifies this, state, output
      ensures Valid() && data == old(data) && channels == old(channels) && initialized == old(initialized)
      ensures !old(initialized) ==>
        !ok && decodedSize == 0 && currentPos == old(currentPos) && States() == old(States())
        && output[..] == old(output[..])
      ensures old(initialized) ==>
        var r := Run(old(States()), channels == 2, old(data[currentPos..]), bufferSize / 2);
        && output[..|r.samples|] == r.samples
        && output[|r.samples|..] == old(output[..])[|r.samples|..]
        && decodedSize == 2 * |r.samples|
        && (ok <==> |r.samples| > 0)
        && currentPos == old(currentPos) + r.consumed
        && States() == r.final
    {
      if !initialized {
        return false, 0;
      }
      var samplesDecoded := 0;
      var maxSamples := bufferSize / 2;
      ghost var whole := Run(States(), channels == 2, data[currentPos..], maxSamples);
      ghost var base := currentPos;
      ghost var orig := output[..];
      assert Snapshot(output, 0, base) == Cursor([], 0, States(), data[currentPos..], maxSamples);
      while currentPos < dataSize && samplesDecoded < maxSamples
        invariant Valid() && data == old(data) && channels == old(channels) && initialized
        invariant base <= currentPos && 0 <= samplesDecoded <= maxSamples && maxSamples == output.Length
        invariant Heading(whole, channels == 2, Snapshot(output, samplesDecoded, base))
        invariant output[samplesDecoded..] == orig[samplesDecoded..]
        decreases dataSize - currentPos
      {
        samplesDecoded := DecodeStep(output, samplesDecoded, base, whole, orig);
      }
      assert Stopped(Snapshot(output, samplesDecoded, base));
      decodedSize := samplesDecoded * 2;
      ok := samplesDecoded > 0;
    }

    /** Rewinds the cursor and puts both channels back to the initial state. */
    method Reset()
      requires Valid()
      modifies this, state
      ensures Valid() && data == old(data) && channels == old(channels) && initialized == old(initialized)
      ensures currentPos == 0 && States() == Channels(INITIAL_STATE, INITIAL_STATE)
    {
      currentPos := 0;
      state[0] := INITIAL_STATE;
      state[1] := INITIAL_STATE;
    }
  }
}
