/** The channel-reference codec of src/lib.rs (`cr_pack`, `cr_unpack`) and
    its lifting to whole channel lists.

    A channel reference is packed into one 32-bit word: the channel in bits
    0-7, the range index in bits 16-23 and the ARef code in bits 24-25. */
module Codec {
  import opened Outcomes
  import opened Types

  /** One (channel, range, aref) triple of a channel list. */
  datatype ChanRef = ChanRef(chan: Word, rng: Word, aref: ARef)

  /** The bits a packed word can have set: 0-7, 16-23 and 24-25. */
  const FieldBits: Word := 0x03FF_00FF

  /** Channel and range fit their 8-bit fields. */
  predicate InRange(r: ChanRef) {
    r.chan <= 0xFF && r.rng <= 0xFF
  }

  /** `cr_pack`: every field is masked to its width, so out-of-range values
      are truncated, and nothing lands outside the three fields. */
  function Pack(c: DriverCodes, chan: Word, rng: Word, aref: ARef): (w: Word)
    ensures w & !FieldBits == 0
    ensures w & 0xFF == chan & 0xFF
    ensures (w >> 16) & 0xFF == rng & 0xFF
    ensures (w >> 24) & 0x3 == ARefRepr(c, aref) & 0x3
  {
    ((ARefRepr(c, aref) & 0x3) << 24) | ((rng & 0xFF) << 16) | (chan & 0xFF)
  }

  /** `cr_unpack`: the fields are extracted by shift and mask; the ARef field
      is decoded with `from_repr(..).unwrap()`, which panics when the two bits
      are not the code of any ARef. */
  function Unpack(c: DriverCodes, w: Word): (r: Outcome<ChanRef>)
    ensures r.Returns? <==> (w >> 24) & 0x3 in ARefCodes(c)
    ensures r.Returns? ==> InRange(r.value)
    ensures r.Returns? ==> ARefRepr(c, r.value.aref) == (w >> 24) & 0x3
  {
    match ARefFromRepr(c, (w >> 24) & 0x3)
    case None => Panics
    case Some(aref) => Returns(ChanRef(w & 0xFF, (w >> 16) & 0xFF, aref))
  }

  /** A word whose three fields hold an in-range triple unpacks to that
      triple, whatever its other bits. */
  lemma UnpackFields(c: DriverCodes, w: Word, r: ChanRef)
    requires Distinct(ARefTable(c))
    requires InRange(r)
    requires w & 0xFF == r.chan && (w >> 16) & 0xFF == r.rng
    requires (w >> 24) & 0x3 == ARefRepr(c, r.aref)
    ensures Unpack(c, w) == Returns(r)
  {
    assert ARefFromRepr(c, ARefRepr(c, r.aref)) == Some(r.aref) by { ARefCodeMap(c); }
  }

  /** Round trip: an in-range triple survives packing and unpacking, provided
      the ARef codes are distinct and fit in two bits. */
  lemma PackUnpack(c: DriverCodes, r: ChanRef)
    requires Distinct(ARefTable(c)) && ARefCodesFit(c)
    requires InRange(r)
    ensures Unpack(c, Pack(c, r.chan, r.rng, r.aref)) == Returns(r)
  {
    FieldsFit(ARefRepr(c, r.aref), r.rng, r.chan);
    UnpackFields(c, Pack(c, r.chan, r.rng, r.aref), r);
  }

  /** Values that already fit their fields pass through the masks unchanged. */
  lemma FieldsFit(a: Word, rng: Word, chan: Word)
    requires a < 4 && rng <= 0xFF && chan <= 0xFF
    ensures a & 0x3 == a && rng & 0xFF == rng && chan & 0xFF == chan
  {
  }

  /** Reassembling the three fields of a word gives its field bits. */
  lemma Reassemble(w: Word)
    ensures ((((w >> 24) & 0x3) & 0x3) << 24) | ((((w >> 16) & 0xFF) & 0xFF) << 16) | ((w & 0xFF) & 0xFF)
            == w & FieldBits
  {
  }

  /** The other direction: whatever `cr_unpack` returns packs back to the
      word's field bits, so a word with no bits outside the fields is exactly
      the packing of its unpacking. */
  lemma UnpackPack(c: DriverCodes, w: Word)
    requires Unpack(c, w).Returns?
    ensures var r := Unpack(c, w).value; Pack(c, r.chan, r.rng, r.aref) == w & FieldBits
  {
    var r := Unpack(c, w).value;
    assert r.chan == w & 0xFF && r.rng == (w >> 16) & 0xFF;
    assert ARefRepr(c, r.aref) == (w >> 24) & 0x3;
    Reassemble(w);
  }

  /** Under the two-bit assumption, a word with no bits outside the fields is
      exactly the packing of its unpacking. */
  lemma PackedWordRoundTrip(c: DriverCodes, w: Word)
    requires Distinct(ARefTable(c)) && ARefCodesFit(c)
    requires w & !FieldBits == 0
    ensures Unpack(c, w).Returns?
    ensures var r := Unpack(c, w).value; Pack(c, r.chan, r.rng, r.aref) == w
  {
    UnpackNeverPanics(c, w);
    UnpackPack(c, w);
    assert w & FieldBits == w;
  }

  /** Masking: channel and range are truncated to 8 bits. */
  lemma PackTruncates(c: DriverCodes, chan: Word, rng: Word, aref: ARef)
    ensures Pack(c, chan, rng, aref) == Pack(c, chan & 0xFF, rng & 0xFF, aref)
  {
    assert (chan & 0xFF) & 0xFF == chan & 0xFF && (rng & 0xFF) & 0xFF == rng & 0xFF;
  }

  /** Masking: adding 256 to the channel leaves the packed word unchanged. */
  lemma PackChannelWraps(c: DriverCodes, chan: Word, rng: Word, aref: ARef)
    ensures Pack(c, chan + 0x100, rng, aref) == Pack(c, chan, rng, aref)
  {
    assert (chan + 0x100) & 0xFF == chan & 0xFF;
  }

  /** Masking: adding 256 to the range leaves the packed word unchanged. */
  lemma PackRangeWraps(c: DriverCodes, chan: Word, rng: Word, aref: ARef)
    ensures Pack(c, chan, rng + 0x100, aref) == Pack(c, chan, rng, aref)
  {
    assert (rng + 0x100) & 0xFF == rng & 0xFF;
  }

  /** Under the two-bit assumption the four distinct ARef codes are exactly
      0, 1, 2 and 3, so `cr_unpack` never panics. */
  lemma UnpackNeverPanics(c: DriverCodes, w: Word)
    requires Distinct(ARefTable(c)) && ARefCodesFit(c)
    ensures Unpack(c, w).Returns?
  {
    var t := ARefTable(c);
    var x := (w >> 24) & 0x3;
    assert t[0].1 != t[1].1 && t[0].1 != t[2].1 && t[0].1 != t[3].1;
    assert t[1].1 != t[2].1 && t[1].1 != t[3].1 && t[2].1 != t[3].1;
    assert x == t[0].1 || x == t[1].1 || x == t[2].1 || x == t[3].1;
  }

  // ---------------------------------------------------------------------
  // Channel lists, as `set_chanlist` and `chanlist` map the codec over them.

  /** The owned buffer that `set_chanlist` collects: one packed word per
      triple, in order, each within the field bits. */
  function PackList(c: DriverCodes, refs: seq<ChanRef>): (ws: seq<Word>)
    ensures |ws| == |refs|
    ensures forall i :: 0 <= i < |ws| ==> ws[i] & !FieldBits == 0
    ensures forall i :: 0 <= i < |refs| ==>
              ws[i] == Pack(c, refs[i].chan, refs[i].rng, refs[i].aref)
  {
    seq(|refs|, i requires 0 <= i < |refs| => Pack(c, refs[i].chan, refs[i].rng, refs[i].aref))
  }

  /** The decoded list that `chanlist` collects: it panics as soon as one word
      does, and otherwise holds the unpacking of every word, in order. */
  function UnpackList(c: DriverCodes, ws: seq<Word>): (r: Outcome<seq<ChanRef>>)
    ensures r.Returns? <==> forall i :: 0 <= i < |ws| ==> Unpack(c, ws[i]).Returns?
    ensures r.Returns? ==> |r.value| == |ws|
    ensures r.Returns? ==> forall i :: 0 <= i < |ws| ==> Unpack(c, ws[i]) == Returns(r.value[i])
  {
    if ws == [] then Returns([])
    else
      match Unpack(c, ws[0])
      case Panics => Panics
      case Returns(head) =>
        match UnpackList(c, ws[1..])
        case Panics => Panics
        case Returns(tail) => Returns([head] + tail)
  }

  /** A channel list of in-range triples decodes back to itself. */
  lemma ListRoundTrip(c: DriverCodes, refs: seq<ChanRef>)
    requires Distinct(ARefTable(c)) && ARefCodesFit(c)
    requires forall i :: 0 <= i < |refs| ==> InRange(refs[i])
    ensures UnpackList(c, PackList(c, refs)) == Returns(refs)
  {
    var ws := PackList(c, refs);
    forall i | 0 <= i < |refs| ensures Unpack(c, ws[i]) == Returns(refs[i]) {
      PackUnpack(c, refs[i]);
    }
    var r := UnpackList(c, ws);
    assert r.Returns?;
    assert r.value == refs;
  }

  /** A buffer of packed words decodes without panicking, and its decoding
      packs back to the same buffer. */
  lemma PackedListRoundTrip(c: DriverCodes, ws: seq<Word>)
    requires Distinct(ARefTable(c)) && ARefCodesFit(c)
    requires forall i :: 0 <= i < |ws| ==> ws[i] & !FieldBits == 0
    ensures UnpackList(c, ws).Returns?
    ensures PackList(c, UnpackList(c, ws).value) == ws
  {
    forall i | 0 <= i < |ws| ensures Unpack(c, ws[i]).Returns? {
      PackedWordRoundTrip(c, ws[i]);
    }
    var refs := UnpackList(c, ws).value;
    forall i | 0 <= i < |ws|
      ensures Pack(c, refs[i].chan, refs[i].rng, refs[i].aref) == ws[i]
    {
      PackedWordRoundTrip(c, ws[i]);
    }
  }
}
