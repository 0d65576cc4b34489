/**
 * The HueStream v2 frame builder: a fixed 192-byte arena, allocated once, with
 * a logical length given by the number of channel entries written since the
 * last reset.
 */
module Message {
  import opened Wrappers
  import opened Sequences

  /** Go's `byte` (uint8). */
  newtype byte = x: int | 0 <= x < 0x100

  /** Go's `uint16`. */
  newtype uint16 = x: int | 0 <= x < 0x1_0000

  type ColorSpace = byte

  const COLOR_SPACE_RGB: ColorSpace := 0
  const COLOR_SPACE_XY: ColorSpace := 1

  const MAX_CHANNELS := 20
  const PREAMBLE_SIZE := 52
  const ENTERTAINMENT_CONFIG_ID_SIZE := 36
  const CHANNEL_MESSAGE_SIZE := 7
  const MAX_MESSAGE_SIZE := PREAMBLE_SIZE + MAX_CHANNELS * CHANNEL_MESSAGE_SIZE

  /** Three 16-bit colour components as they go on the wire. */
  datatype Triple = Triple(a: uint16, b: uint16, c: uint16)

  /**
   * A colour as the builder consumes it. The floating-point conversion of a
   * colour to 16-bit components is not modelled: a colour is represented by
   * the two component triples it quantises to, scaled RGB and scaled XYZ.
   */
  datatype Color = Color(rgb: Triple, xyz: Triple)

  /** The components written for `col`: RGB in the RGB colour space, XYZ in any other. */
  function Components(colorSpace: ColorSpace, col: Color): Triple
  {
    if colorSpace == COLOR_SPACE_RGB then col.rgb else col.xyz
  }

  function Zeros(n: nat): (z: seq<byte>)
    ensures |z| == n && forall i :: 0 <= i < n ==> z[i] == 0
  {
    seq(n, _ => 0)
  }

  /** `s` with the bytes from offset `at` on replaced by `x`. */
  function Overwrite(s: seq<byte>, at: nat, x: seq<byte>): (r: seq<byte>)
    requires at + |x| <= |s|
    ensures |r| == |s|
  {
    s[..at] + x + s[at + |x|..]
  }

  /** Two writes side by side are one write of both. */
  lemma OverwriteAdjacent(s: seq<byte>, at: nat, x: seq<byte>, y: seq<byte>)
    requires at + |x| + |y| <= |s|
    ensures Overwrite(Overwrite(s, at, x), at + |x|, y) == Overwrite(s, at, x + y)
  {
    var t := Overwrite(s, at, x);
    assert t[..at + |x|] == s[..at] + x;
    assert t[at + |x| + |y|..] == s[at + |x| + |y|..];
  }

  /** Writing the next byte of `src` extends a write of its first `i` bytes by one. */
  lemma OverwriteNext(s: seq<byte>, t: seq<byte>, at: nat, src: seq<byte>, i: nat)
    requires i < |src| && at + i < |s| && t == Overwrite(s, at, src[..i])
    ensures t[at + i := src[i]] == Overwrite(s, at, src[..i + 1])
  {
    assert t[at + i := src[i]] == Overwrite(t, at + i, [src[i]]);
    OverwriteAdjacent(s, at, src[..i], [src[i]]);
    assert src[..i] + [src[i]] == src[..i + 1];
  }

  /** What a write leaves before its offset, and the prefix it ends. */
  lemma OverwritePrefix(s: seq<byte>, at: nat, x: seq<byte>)
    requires at + |x| <= |s|
    ensures Overwrite(s, at, x)[..at] == s[..at]
    ensures Overwrite(s, at, x)[..at + |x|] == s[..at] + x
  {
  }

  // ---------------------------------------------------------------------------
  // Byte layout
  // ---------------------------------------------------------------------------

  /** The protocol name "HueStream" in ASCII. */
  const PROTOCOL_NAME: seq<byte> := [0x48, 0x75, 0x65, 0x53, 0x74, 0x72, 0x65, 0x61, 0x6d]

  /**
   * The 52-byte preamble: protocol name, version 2.0, sequence id 0, two
   * reserved zero bytes, the colour space, one reserved zero byte, and the
   * entertainment configuration id.
   */
  function PreambleBytes(colorSpace: ColorSpace, configId: seq<byte>): seq<byte>
  {
    PROTOCOL_NAME + [0x02, 0x00] + [0x00] + [0x00, 0x00] + [colorSpace] + [0x00] + configId
  }

  /** The preamble fields at the offsets of the wire format. */
  lemma PreambleLayout(colorSpace: ColorSpace, configId: seq<byte>)
    requires |configId| == ENTERTAINMENT_CONFIG_ID_SIZE
    ensures var p := PreambleBytes(colorSpace, configId);
      |p| == PREAMBLE_SIZE && p[..9] == PROTOCOL_NAME &&
      p[9] == 0x02 && p[10] == 0x00 && p[11] == 0 && p[12] == 0 && p[13] == 0 &&
      p[14] == colorSpace && p[15] == 0 && p[16..] == configId
  {
  }

  /** Reads a preamble back: the colour space and the configuration id, if the fixed bytes match. */
  function DecodePreamble(frame: seq<byte>): Option<(ColorSpace, seq<byte>)>
  {
    if |frame| >= PREAMBLE_SIZE && frame[..9] == PROTOCOL_NAME && frame[9..14] == [0x02, 0x00, 0x00, 0x00, 0x00]
       && frame[15] == 0
    then Some((frame[14], frame[16..PREAMBLE_SIZE]))
    else None
  }

  lemma PreambleRoundTrip(colorSpace: ColorSpace, configId: seq<byte>, body: seq<byte>)
    requires |configId| == ENTERTAINMENT_CONFIG_ID_SIZE
    ensures DecodePreamble(PreambleBytes(colorSpace, configId) + body) == Some((colorSpace, configId))
  {
    var f := PreambleBytes(colorSpace, configId) + body;
    assert f[..9] == PROTOCOL_NAME;
    assert f[9..14] == [0x02, 0x00, 0x00, 0x00, 0x00];
    assert f[16..PREAMBLE_SIZE] == configId;
  }

  /** binary.BigEndian.PutUint16: high byte first. */
  function BigEndian16(v: uint16): seq<byte>
  {
    [(v / 0x100) as byte, (v % 0x100) as byte]
  }

  /** binary.BigEndian.Uint16. */
  function ReadBigEndian16(hi: byte, lo: byte): uint16
  {
    (hi as int * 0x100 + lo as int) as uint16
  }

  lemma BigEndian16RoundTrip(v: uint16, hi: byte, lo: byte)
    ensures ReadBigEndian16(BigEndian16(v)[0], BigEndian16(v)[1]) == v
    ensures BigEndian16(ReadBigEndian16(hi, lo)) == [hi, lo]
  {
  }

  /** One channel entry of a frame. */
  datatype Entry = Entry(channelId: byte, components: Triple)

  /** The 7 bytes of one entry: channel id, then the three components big-endian. */
  function EntryBytes(e: Entry): (r: seq<byte>)
    ensures |r| == CHANNEL_MESSAGE_SIZE
  {
    [e.channelId] + BigEndian16(e.components.a) + BigEndian16(e.components.b) + BigEndian16(e.components.c)
  }

  function DecodeEntry(s: seq<byte>): Entry
    requires |s| >= CHANNEL_MESSAGE_SIZE
  {
    Entry(s[0], Triple(ReadBigEndian16(s[1], s[2]), ReadBigEndian16(s[3], s[4]), ReadBigEndian16(s[5], s[6])))
  }

  lemma EntryRoundTrip(e: Entry)
    ensures DecodeEntry(EntryBytes(e)) == e
  {
    var a, b, c := BigEndian16(e.components.a), BigEndian16(e.components.b), BigEndian16(e.components.c);
    BigEndian16RoundTrip(e.components.a, 0, 0);
    BigEndian16RoundTrip(e.components.b, 0, 0);
    BigEndian16RoundTrip(e.components.c, 0, 0);
    assert EntryBytes(e) == [e.channelId, a[0], a[1], b[0], b[1], c[0], c[1]];
  }

  /** The entry region of a frame holding `entries`, in order. */
  function EncodeEntries(entries: seq<Entry>): (r: seq<byte>)
    ensures |r| == CHANNEL_MESSAGE_SIZE * |entries|
  {
    if entries == [] then []
    else EncodeEntries(entries[..|entries| - 1]) + EntryBytes(entries[|entries| - 1])
  }

  /** Reads an entry region back, 7 bytes per entry. */
  function DecodeEntries(s: seq<byte>): seq<Entry>
    requires |s| % CHANNEL_MESSAGE_SIZE == 0
    decreases |s|
  {
    if s == [] then []
    else DecodeEntries(s[..|s| - CHANNEL_MESSAGE_SIZE]) + [DecodeEntry(s[|s| - CHANNEL_MESSAGE_SIZE..])]
  }

  /** Decoding the entry region yields the same channel ids and components in write order. */
  lemma {:induction false} EntriesRoundTrip(entries: seq<Entry>)
    ensures DecodeEntries(EncodeEntries(entries)) == entries
  {
    if entries != [] {
      var init := entries[..|entries| - 1];
      var last := entries[|entries| - 1];
      var s := EncodeEntries(entries);
      EntriesRoundTrip(init);
      EntryRoundTrip(last);
      assert s[..|s| - CHANNEL_MESSAGE_SIZE] == EncodeEntries(init);
      assert s[|s| - CHANNEL_MESSAGE_SIZE..] == EntryBytes(last);
      assert init + [last] == entries;
    }
  }

  /** Encoding one more entry appends its seven bytes. */
  lemma EncodeEntriesSnoc(entries: seq<Entry>, e: Entry)
    ensures EncodeEntries(entries + [e]) == EncodeEntries(entries) + EntryBytes(e)
  {
    assert (entries + [e])[..|entries|] == entries;
  }

  /** Encoding is a homomorphism from entry lists to byte strings. */
  lemma {:induction false} EncodeEntriesAppend(xs: seq<Entry>, ys: seq<Entry>)
    ensures EncodeEntries(xs + ys) == EncodeEntries(xs) + EncodeEntries(ys)
    decreases |ys|
  {
    if ys == [] {
      assert xs + ys == xs;
    } else {
      var init := ys[..|ys| - 1];
      var last := ys[|ys| - 1];
      assert xs + ys == (xs + init) + [last];
      assert ys == init + [last];
      EncodeEntriesSnoc(xs + init, last);
      EncodeEntriesSnoc(init, last);
      EncodeEntriesAppend(xs, init);
    }
  }

  // ---------------------------------------------------------------------------
  // MessageBuilder
  // ---------------------------------------------------------------------------

  class MessageBuilder {
    /** The arena; allocated once and never reallocated. */
    const buffer: array<byte>
    const colorSpace: ColorSpace
    var channelMessageCount: int

    ghost predicate Valid()
      reads this
    {
      buffer.Length == MAX_MESSAGE_SIZE && 0 <= channelMessageCount <= MAX_CHANNELS
    }

    /** The bytes Build returns in the current state. */
    ghost function Frame(): (f: seq<byte>)
      reads this, buffer
      requires Valid()
    {
      buffer[..PREAMBLE_SIZE + channelMessageCount * CHANNEL_MESSAGE_SIZE]
    }

    /** NewBuilder: a zeroed arena of MAX_MESSAGE_SIZE bytes and no entries. */
    constructor (colorSpace: ColorSpace)
      ensures Valid() && fresh(buffer)
      ensures this.colorSpace == colorSpace && channelMessageCount == 0
      ensures buffer[..] == Zeros(MAX_MESSAGE_SIZE)
    {
      buffer := new byte[MAX_MESSAGE_SIZE](_ => 0);
      this.colorSpace := colorSpace;
      channelMessageCount := 0;
    }

    /**
     * Go's copy(buffer[start:], src): copies as many bytes of `src` as fit
     * and returns how many that was.
     */
    method Copy(start: int, src: seq<byte>) returns (n: int)
      requires 0 <= start <= buffer.Length
      modifies buffer
      ensures n == if |src| < buffer.Length - start then |src| else buffer.Length - start
      ensures buffer[..] == old(buffer[..start]) + src[..n] + old(buffer[start + n..])
    {
      n := if |src| < buffer.Length - start then |src| else buffer.Length - start;
      ghost var orig := buffer[..];
      var i := 0;
      while i < n
        invariant 0 <= i <= n
        invariant buffer[..] == Overwrite(orig, start, src[..i])
      {
        ghost var before := buffer[..];
        buffer[start + i] := src[i];
        assert buffer[..] == before[start + i := src[i]];
        OverwriteNext(orig, before, start, src, i);
        i := i + 1;
      }
      assert old(buffer[..start]) == orig[..start] && old(buffer[start + n..]) == orig[start + n..];
    }

    /**
     * Lays down the preamble. A configuration id of any length other than 36
     * is a panic in the source, so it is a precondition here.
     */
    method WritePreamble(configId: seq<byte>)
      requires Valid() && |configId| == ENTERTAINMENT_CONFIG_ID_SIZE
      modifies buffer
      ensures Valid() && channelMessageCount == old(channelMessageCount)
      ensures buffer[..] == PreambleBytes(colorSpace, configId) + old(buffer[PREAMBLE_SIZE..])
    {
      var header := PROTOCOL_NAME + [0x02, 0x00] + [0x00] + [0x00, 0x00] + [colorSpace] + [0x00];
      ghost var orig := buffer[..];
      var position := 0;
      var n := Copy(position, header);
      position := position + n;
      ghost var mid := buffer[..];
      assert mid[..position] == header && mid[PREAMBLE_SIZE..] == orig[PREAMBLE_SIZE..];
      n := Copy(position, configId);
      position := position + n;
      assert buffer[..] == header + configId + orig[PREAMBLE_SIZE..];
      assert old(buffer[PREAMBLE_SIZE..]) == orig[PREAMBLE_SIZE..];
    }

    /** Forgets all entries; no byte of the arena changes. */
    method ResetBody()
      requires Valid()
      modifies this`channelMessageCount
      ensures Valid() && channelMessageCount == 0
      ensures buffer[..] == old(buffer[..])
    {
      channelMessageCount := 0;
    }

    /** binary.BigEndian.PutUint16(buffer[at:], v). */
    method PutUint16(at: int, v: uint16)
      requires 0 <= at && at + 2 <= buffer.Length
      modifies buffer
      ensures buffer[..] == Overwrite(old(buffer[..]), at, BigEndian16(v))
    {
      buffer[at] := (v / 0x100) as byte;
      buffer[at + 1] := (v % 0x100) as byte;
    }

    /** Writes entry `e` at byte offset `start`, leaving every other byte as it was. */
    method WriteEntryAt(start: int, channelId: byte, col: Color)
      requires Valid() && 0 <= start && start + CHANNEL_MESSAGE_SIZE <= buffer.Length
      modifies buffer
      ensures buffer[..] == Overwrite(old(buffer[..]), start, EntryBytes(Entry(channelId, Components(colorSpace, col))))
    {
      ghost var before := buffer[..];
      buffer[start] := channelId;
      var rx, gy, bz;
      if colorSpace == COLOR_SPACE_RGB {
        rx, gy, bz := col.rgb.a, col.rgb.b, col.rgb.c;
      } else {
        rx, gy, bz := col.xyz.a, col.xyz.b, col.xyz.c;
      }
      assert buffer[..] == Overwrite(before, start, [channelId]);
      PutUint16(start + 1, rx);
      OverwriteAdjacent(before, start, [channelId], BigEndian16(rx));
      PutUint16(start + 3, gy);
      OverwriteAdjacent(before, start, [channelId] + BigEndian16(rx), BigEndian16(gy));
      PutUint16(start + 5, bz);
      OverwriteAdjacent(before, start, [channelId] + BigEndian16(rx) + BigEndian16(gy), BigEndian16(bz));
    }

    /**
     * WriteChannelColor as the source has it: the count goes up by one, but
     * the entry is always written at offset PREAMBLE_SIZE, over the first
     * entry. Going past MAX_CHANNELS entries is a panic, hence the precondition.
     */
    method WriteChannelColor(channelId: byte, col: Color)
      requires Valid() && channelMessageCount < MAX_CHANNELS
      modifies this`channelMessageCount, buffer
      ensures Valid() && channelMessageCount == old(channelMessageCount) + 1
      ensures buffer[..] == Overwrite(old(buffer[..]), PREAMBLE_SIZE, EntryBytes(Entry(channelId, Components(colorSpace, col))))
    {
      channelMessageCount := channelMessageCount + 1;
      var start := PREAMBLE_SIZE;
      WriteEntryAt(start, channelId, col);
    }

    /**
     * WriteChannelColor as evidently intended: the entry goes into the next
     * free slot, so the frame grows by exactly that entry.
     */
    method AppendChannelColor(channelId: byte, col: Color)
      requires Valid() && channelMessageCount < MAX_CHANNELS
      modifies this`channelMessageCount, buffer
      ensures Valid() && channelMessageCount == old(channelMessageCount) + 1
      ensures Frame() == old(Frame()) + EntryBytes(Entry(channelId, Components(colorSpace, col)))
      ensures buffer[..PREAMBLE_SIZE] == old(buffer[..PREAMBLE_SIZE])
    {
      channelMessageCount := channelMessageCount + 1;
      var start := PREAMBLE_SIZE + (channelMessageCount - 1) * CHANNEL_MESSAGE_SIZE;
      ghost var before := buffer[..];
      WriteEntryAt(start, channelId, col);
      OverwritePrefix(before, start, EntryBytes(Entry(channelId, Components(colorSpace, col))));
    }

    /**
     * The first 52 + 7 * count bytes of the arena. Build changes nothing, so
     * calls without a write or reset in between return the same bytes.
     */
    method Build() returns (frame: seq<byte>)
      requires Valid()
      ensures frame == Frame()
      ensures |frame| == PREAMBLE_SIZE + CHANNEL_MESSAGE_SIZE * channelMessageCount <= MAX_MESSAGE_SIZE
      ensures frame[..PREAMBLE_SIZE] == buffer[..PREAMBLE_SIZE]
    {
      var size := PREAMBLE_SIZE + channelMessageCount * CHANNEL_MESSAGE_SIZE;
      frame := buffer[..size];
    }

    /**
     * The builder holds what writer `w` leaves after ResetBody and one write
     * per entry of `entries`: Build would return FrameOf those entries. For
     * the as-written writer the arena tail also stays zero.
     */
    ghost predicate Holds(w: Writer, entries: seq<Entry>)
      reads this, buffer
    {
      Valid() && channelMessageCount == |entries| &&
      Frame() == FrameOf(w, buffer[..PREAMBLE_SIZE], entries) &&
      (w == AsWritten ==> TailZero(buffer[..]))
    }

    /** One write of a batch through writer `w`: WriteChannelColor, or the corrected AppendChannelColor. */
    method WriteWith(w: Writer, channelId: byte, col: Color, ghost entries: seq<Entry>)
      requires Holds(w, entries) && channelMessageCount < MAX_CHANNELS
      modifies this`channelMessageCount, buffer
      ensures Holds(w, entries + [Entry(channelId, Components(colorSpace, col))])
      ensures buffer[..PREAMBLE_SIZE] == old(buffer[..PREAMBLE_SIZE])
    {
      ghost var e := Entry(channelId, Components(colorSpace, col));
      ghost var preamble := buffer[..PREAMBLE_SIZE];
      if w == AsWritten {
        ghost var before := buffer[..];
        WriteChannelColor(channelId, col);
        SlotWriteKeepsTail(before, EntryBytes(e));
        SlotFrame(buffer[..], |entries| + 1);
        ghost var f := Frame();
        assert f == buffer[..][..PREAMBLE_SIZE + CHANNEL_MESSAGE_SIZE * (|entries| + 1)];
        assert f[..PREAMBLE_SIZE] == preamble;
        assert f == f[..PREAMBLE_SIZE] + f[PREAMBLE_SIZE..];
        assert (entries + [e])[|entries + [e]| - 1] == e;
      } else {
        AppendChannelColor(channelId, col);
        EncodeEntriesSnoc(entries, e);
        AppendAssoc(preamble, EncodeEntries(entries), EntryBytes(e));
      }
    }
  }

  // ---------------------------------------------------------------------------
  // The fixed entry offset of WriteChannelColor
  // ---------------------------------------------------------------------------

  /** What an entry slot of a fresh arena decodes to. */
  const BLANK_ENTRY := Entry(0, Triple(0, 0, 0))

  lemma BlankEntryBytes()
    ensures EntryBytes(BLANK_ENTRY) == Zeros(CHANNEL_MESSAGE_SIZE)
  {
  }

  lemma ZerosAppend(m: nat, n: nat)
    ensures Zeros(m) + Zeros(n) == Zeros(m + n)
  {
    var a, c := Zeros(m) + Zeros(n), Zeros(m + n);
    forall i | 0 <= i < m + n ensures a[i] == c[i] {
      if i < m { assert a[i] == Zeros(m)[i]; } else { assert a[i] == Zeros(n)[i - m]; }
    }
  }

  lemma ZerosSlice(n: nat, i: nat, j: nat)
    requires i <= j <= n
    ensures Zeros(n)[i..j] == Zeros(j - i)
  {
    var a := Zeros(n)[i..j];
    forall k | 0 <= k < j - i ensures a[k] == Zeros(j - i)[k] {
      assert a[k] == Zeros(n)[i + k];
    }
  }

  lemma EncodeThree(a: Entry, b: Entry, c: Entry)
    ensures EncodeEntries([a, b, c]) == EntryBytes(a) + EntryBytes(b) + EntryBytes(c)
  {
    assert EncodeEntries([a]) == EntryBytes(a) by {
      assert [a][..0] == [];
      assert [] + EntryBytes(a) == EntryBytes(a);
    }
    assert EncodeEntries([a, b]) == EncodeEntries([a]) + EntryBytes(b) by {
      assert [a, b][..1] == [a];
    }
    assert EncodeEntries([a, b, c]) == EncodeEntries([a, b]) + EntryBytes(c) by {
      assert [a, b, c][..2] == [a, b];
    }
  }

  /** A second write over the same bytes hides the first. */
  lemma OverwriteTwice(s: seq<byte>, at: nat, x: seq<byte>, y: seq<byte>)
    requires at + |x| <= |s| && |y| == |x|
    ensures Overwrite(Overwrite(s, at, x), at, y) == Overwrite(s, at, y)
  {
    var t := Overwrite(s, at, x);
    assert t[..at] == s[..at];
    assert t[at + |y|..] == s[at + |y|..];
  }

  /**
   * A broadcast to channels 1, 2 and 5 through WriteChannelColor as the
   * source has it, on a fresh builder: the frame claims three entries, but
   * only the last write survives, in the first slot, and the other two slots
   * still hold the zeros the arena was allocated with.
   */
  method AsWrittenBroadcast(configId: seq<byte>, col: Color) returns (frame: seq<byte>)
    requires |configId| == ENTERTAINMENT_CONFIG_ID_SIZE
    ensures |frame| == PREAMBLE_SIZE + 3 * CHANNEL_MESSAGE_SIZE
    ensures frame[..PREAMBLE_SIZE] == PreambleBytes(COLOR_SPACE_RGB, configId)
    ensures DecodeEntries(frame[PREAMBLE_SIZE..]) == [Entry(5, col.rgb), BLANK_ENTRY, BLANK_ENTRY]
  {
    ghost var p := PreambleBytes(COLOR_SPACE_RGB, configId);
    ghost var z := Zeros(MAX_MESSAGE_SIZE - PREAMBLE_SIZE);
    ghost var e1, e2, e5 := EntryBytes(Entry(1, col.rgb)), EntryBytes(Entry(2, col.rgb)), EntryBytes(Entry(5, col.rgb));
    var b := new MessageBuilder(COLOR_SPACE_RGB);
    ZerosSlice(MAX_MESSAGE_SIZE, PREAMBLE_SIZE, MAX_MESSAGE_SIZE);
    b.WritePreamble(configId);
    assert b.buffer[..] == p + z;
    b.WriteChannelColor(1, col);
    b.WriteChannelColor(2, col);
    OverwriteTwice(p + z, PREAMBLE_SIZE, e1, e2);
    b.WriteChannelColor(5, col);
    OverwriteTwice(p + z, PREAMBLE_SIZE, e2, e5);
    frame := b.Build();
    assert b.buffer[..] == p + e5 + z[CHANNEL_MESSAGE_SIZE..] by {
      assert (p + z)[..PREAMBLE_SIZE] == p;
      assert (p + z)[PREAMBLE_SIZE + CHANNEL_MESSAGE_SIZE..] == z[CHANNEL_MESSAGE_SIZE..];
    }
    AsWrittenFrame(p, e5, z[CHANNEL_MESSAGE_SIZE..], frame);
    EncodeThree(Entry(5, col.rgb), BLANK_ENTRY, BLANK_ENTRY);
    EntriesRoundTrip([Entry(5, col.rgb), BLANK_ENTRY, BLANK_ENTRY]);
  }

  /** The first three entry slots of an arena holding `p`, the entry `e` and zeros. */
  lemma AsWrittenFrame(p: seq<byte>, e: seq<byte>, z: seq<byte>, frame: seq<byte>)
    requires |p| == PREAMBLE_SIZE && |e| == CHANNEL_MESSAGE_SIZE
    requires z == Zeros(MAX_MESSAGE_SIZE - PREAMBLE_SIZE - CHANNEL_MESSAGE_SIZE)
    requires frame == (p + e + z)[..PREAMBLE_SIZE + 3 * CHANNEL_MESSAGE_SIZE]
    ensures frame[..PREAMBLE_SIZE] == p
    ensures frame[PREAMBLE_SIZE..] == e + EntryBytes(BLANK_ENTRY) + EntryBytes(BLANK_ENTRY)
  {
    var blank := EntryBytes(BLANK_ENTRY);
    assert frame == p + e + z[..2 * CHANNEL_MESSAGE_SIZE];
    ZerosSlice(|z|, 0, 2 * CHANNEL_MESSAGE_SIZE);
    BlankEntryBytes();
    ZerosAppend(CHANNEL_MESSAGE_SIZE, CHANNEL_MESSAGE_SIZE);
    assert z[..2 * CHANNEL_MESSAGE_SIZE] == blank + blank;
  }

  /**
   * The arena bytes past the first entry slot are zero. NewBuilder leaves
   * them so, and neither WritePreamble, ResetBody nor WriteChannelColor
   * writes there, so they stay zero for the builder's lifetime.
   */
  predicate TailZero(s: seq<byte>)
  {
    |s| == MAX_MESSAGE_SIZE &&
    s[PREAMBLE_SIZE + CHANNEL_MESSAGE_SIZE..] == Zeros(MAX_MESSAGE_SIZE - PREAMBLE_SIZE - CHANNEL_MESSAGE_SIZE)
  }

  /** The arena NewBuilder allocates has a zero tail. */
  lemma NewArenaTailZero()
    ensures TailZero(Zeros(MAX_MESSAGE_SIZE))
  {
    ZerosSlice(MAX_MESSAGE_SIZE, PREAMBLE_SIZE + CHANNEL_MESSAGE_SIZE, MAX_MESSAGE_SIZE);
  }

  /** WritePreamble keeps a zero tail. */
  lemma PreambleKeepsTail(s: seq<byte>, colorSpace: ColorSpace, configId: seq<byte>)
    requires |configId| == ENTERTAINMENT_CONFIG_ID_SIZE && TailZero(s)
    ensures TailZero(PreambleBytes(colorSpace, configId) + s[PREAMBLE_SIZE..])
  {
    var t := PreambleBytes(colorSpace, configId) + s[PREAMBLE_SIZE..];
    assert t[PREAMBLE_SIZE + CHANNEL_MESSAGE_SIZE..] == s[PREAMBLE_SIZE + CHANNEL_MESSAGE_SIZE..];
  }

  /** WriteChannelColor's write into slot 0 keeps a zero tail and the preamble. */
  lemma SlotWriteKeepsTail(s: seq<byte>, e: seq<byte>)
    requires TailZero(s) && |e| == CHANNEL_MESSAGE_SIZE
    ensures var t := Overwrite(s, PREAMBLE_SIZE, e);
      TailZero(t) && t[..PREAMBLE_SIZE] == s[..PREAMBLE_SIZE] &&
      t[PREAMBLE_SIZE..PREAMBLE_SIZE + CHANNEL_MESSAGE_SIZE] == e
  {
    var t := Overwrite(s, PREAMBLE_SIZE, e);
    assert t[PREAMBLE_SIZE + CHANNEL_MESSAGE_SIZE..] == s[PREAMBLE_SIZE + CHANNEL_MESSAGE_SIZE..];
  }

  /** What Build returns from an arena with a zero tail: slot 0, then zero bytes for the other n - 1 entries. */
  lemma SlotFrame(s: seq<byte>, n: nat)
    requires TailZero(s) && 1 <= n <= MAX_CHANNELS
    ensures s[..PREAMBLE_SIZE + CHANNEL_MESSAGE_SIZE * n][PREAMBLE_SIZE..]
            == s[PREAMBLE_SIZE..PREAMBLE_SIZE + CHANNEL_MESSAGE_SIZE] + Zeros(CHANNEL_MESSAGE_SIZE * (n - 1))
  {
    var slot := PREAMBLE_SIZE + CHANNEL_MESSAGE_SIZE;
    var end := PREAMBLE_SIZE + CHANNEL_MESSAGE_SIZE * n;
    assert s[..end][PREAMBLE_SIZE..] == s[PREAMBLE_SIZE..slot] + s[slot..end];
    assert s[slot..end] == s[slot..][..end - slot];
    ZerosSlice(MAX_MESSAGE_SIZE - slot, 0, end - slot);
  }

  /** `k` blank entries, as the zero bytes of the arena decode. */
  function Blanks(k: nat): (r: seq<Entry>)
    ensures |r| == k && forall i :: 0 <= i < k ==> r[i] == BLANK_ENTRY
  {
    seq(k, _ => BLANK_ENTRY)
  }

  lemma {:induction false} EncodeBlanks(k: nat)
    ensures EncodeEntries(Blanks(k)) == Zeros(CHANNEL_MESSAGE_SIZE * k)
  {
    if k > 0 {
      EncodeBlanks(k - 1);
      assert Blanks(k)[..k - 1] == Blanks(k - 1);
      BlankEntryBytes();
      ZerosAppend(CHANNEL_MESSAGE_SIZE * (k - 1), CHANNEL_MESSAGE_SIZE);
    }
  }

  // ---------------------------------------------------------------------------
  // The frame of a batch, by entry writer
  // ---------------------------------------------------------------------------

  /**
   * The entry writer a batch goes through: WriteChannelColor as the source
   * has it, which always writes slot 0, or the corrected AppendChannelColor.
   */
  datatype Writer = AsWritten | Corrected

  /**
   * The frame Build returns after ResetBody and one write per entry of
   * `entries` through `w`, behind `preamble`: the as-written writer leaves
   * the last entry in slot 0 and the zero bytes of the arena after it.
   */
  function FrameOf(w: Writer, preamble: seq<byte>, entries: seq<Entry>): (r: seq<byte>)
    ensures |r| == |preamble| + CHANNEL_MESSAGE_SIZE * |entries|
    ensures r[..|preamble|] == preamble
  {
    match w
    case Corrected => preamble + EncodeEntries(entries)
    case AsWritten =>
      if entries == [] then preamble
      else preamble + (EntryBytes(entries[|entries| - 1]) + Zeros(CHANNEL_MESSAGE_SIZE * (|entries| - 1)))
  }

  /** The entries a frame that `w` built from `entries` carries. */
  function WireEntries(w: Writer, entries: seq<Entry>): (r: seq<Entry>)
    ensures |r| == |entries|
  {
    match w
    case Corrected => entries
    case AsWritten => if entries == [] then [] else [entries[|entries| - 1]] + Blanks(|entries| - 1)
  }

  /** Every frame is the preamble followed by the encoding of the entries its writer leaves. */
  lemma FrameOfEncodes(w: Writer, preamble: seq<byte>, entries: seq<Entry>)
    ensures FrameOf(w, preamble, entries) == preamble + EncodeEntries(WireEntries(w, entries))
  {
    if w == AsWritten && entries != [] {
      var last := entries[|entries| - 1];
      var rest := Blanks(|entries| - 1);
      EncodeBlanks(|entries| - 1);
      assert EncodeEntries([last]) == EntryBytes(last) by {
        assert [last][..0] == [];
      }
      EncodeEntriesAppend([last], rest);
    }
  }

  /** A frame's body decodes to the entries its writer leaves. */
  lemma FrameOfDecodes(w: Writer, preamble: seq<byte>, entries: seq<Entry>)
    ensures DecodeEntries(FrameOf(w, preamble, entries)[|preamble|..]) == WireEntries(w, entries)
  {
    FrameOfEncodes(w, preamble, entries);
    AfterPrefix(preamble, EncodeEntries(WireEntries(w, entries)));
    EntriesRoundTrip(WireEntries(w, entries));
  }

  /** Every entry of `entries` is the blank entry. */
  predicate AllBlank(entries: seq<Entry>)
  {
    forall i :: 0 <= i < |entries| ==> entries[i] == BLANK_ENTRY
  }

  /** The as-written writer leaves the entries as they are exactly when there is at most one, or all are blank. */
  lemma WireKeepsEntries(entries: seq<Entry>)
    ensures WireEntries(AsWritten, entries) == entries <==> (|entries| <= 1 || AllBlank(entries))
  {
    var n := |entries|;
    var wire := WireEntries(AsWritten, entries);
    if n >= 2 {
      var rest := Blanks(n - 1);
      assert forall i :: 1 <= i < n ==> wire[i] == rest[i - 1];
      if wire == entries {
        assert entries[n - 1] == BLANK_ENTRY by { assert wire[n - 1] == rest[n - 2]; }
        assert entries[0] == BLANK_ENTRY;
        assert AllBlank(entries);
      }
    } else if n == 1 {
      assert wire == [entries[0]] + [];
    }
  }

  /**
   * The two writers build the same frame exactly when the batch has at most
   * one entry or every entry is blank: any other batch of two or more
   * entries reaches the wire wrongly.
   */
  lemma WritersAgree(preamble: seq<byte>, entries: seq<Entry>)
    ensures FrameOf(AsWritten, preamble, entries) == FrameOf(Corrected, preamble, entries)
            <==> (|entries| <= 1 || AllBlank(entries))
  {
    var a := FrameOf(AsWritten, preamble, entries);
    var c := FrameOf(Corrected, preamble, entries);
    var wire := WireEntries(AsWritten, entries);
    WireKeepsEntries(entries);
    FrameOfEncodes(AsWritten, preamble, entries);
    FrameOfEncodes(Corrected, preamble, entries);
    if a == c {
      FrameOfDecodes(AsWritten, preamble, entries);
      FrameOfDecodes(Corrected, preamble, entries);
      assert wire == entries;
    }
  }

  /**
   * The same broadcast through AppendChannelColor, the evidently intended
   * WriteChannelColor: three entries, one per channel, in write order.
   */
  method IntendedBroadcast(configId: seq<byte>, col: Color) returns (frame: seq<byte>)
    requires |configId| == ENTERTAINMENT_CONFIG_ID_SIZE
    ensures |frame| == PREAMBLE_SIZE + 3 * CHANNEL_MESSAGE_SIZE
    ensures frame[..PREAMBLE_SIZE] == PreambleBytes(COLOR_SPACE_RGB, configId)
    ensures DecodeEntries(frame[PREAMBLE_SIZE..]) == [Entry(1, col.rgb), Entry(2, col.rgb), Entry(5, col.rgb)]
  {
    ghost var p := PreambleBytes(COLOR_SPACE_RGB, configId);
    ghost var e1, e2, e5 := Entry(1, col.rgb), Entry(2, col.rgb), Entry(5, col.rgb);
    ghost var b1, b2, b5 := EntryBytes(e1), EntryBytes(e2), EntryBytes(e5);
    assert Components(COLOR_SPACE_RGB, col) == col.rgb;
    var b := new MessageBuilder(COLOR_SPACE_RGB);
    b.WritePreamble(configId);
    assert b.Frame() == p;
    b.AppendChannelColor(1, col);
    b.AppendChannelColor(2, col);
    AppendAssoc(p, b1, b2);
    b.AppendChannelColor(5, col);
    AppendAssoc(p, b1 + b2, b5);
    frame := b.Build();
    assert frame == p + (b1 + b2 + b5);
    EncodeThree(e1, e2, e5);
    AfterPrefix(p, b1 + b2 + b5);
    EntriesRoundTrip([e1, e2, e5]);
  }

  /** The bytes after a prefix. */
  lemma AfterPrefix(p: seq<byte>, x: seq<byte>)
    ensures (p + x)[..|p|] == p && (p + x)[|p|..] == x
  {
  }
}
