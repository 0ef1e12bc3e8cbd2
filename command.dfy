/** The acquisition-command descriptor `Cmd` of src/lib.rs.

    A `Cmd` owns a C `comedi_cmd` struct (held in an UnsafeCell and updated in
    place) and a `Vec<c_uint>` of packed channel references. The struct's
    `chanlist` pointer is null until `set_chanlist` points it at the owned
    buffer; `chanlist_len` is its length. The invariant that keeps `chanlist()`
    from reading out of bounds is that, once the pointer is set, the length
    field equals the buffer's length. */
module Command {
  import opened Outcomes
  import opened Types
  import opened Codec

  /** The fields of `comedi_cmd` that the crate reads or writes. Source fields
      hold raw driver codes, not enums: one code can mean a variant of several
      phase enums. `chanlistSet` stands for a non-null `chanlist` pointer. */
  datatype CmdStruct = CmdStruct(
    subdev: Word,
    startSrc: Word, startArg: Word,
    scanBeginSrc: Word, scanBeginArg: Word,
    convertSrc: Word, convertArg: Word,
    scanEndSrc: Word, scanEndArg: Word,
    stopSrc: Word, stopArg: Word,
    chanlistSet: bool, chanlistLen: U32)

  class Cmd {
    /** The driver constants the crate was built against. */
    const codes: DriverCodes
    /** The C struct inside the UnsafeCell. */
    var raw: CmdStruct
    /** The owned buffer of packed channel references. */
    var chanlist: seq<Word>

    /** The pointer/length view is consistent with the owned buffer, and the
        buffer only ever holds packed words. */
    ghost predicate Valid()
      reads this
    {
      && Discriminants(codes)
      && (raw.chanlistSet ==> raw.chanlistLen as int == |chanlist|)
      && forall i :: 0 <= i < |chanlist| ==> chanlist[i] & !FieldBits == 0
    }

    /** The descriptor `get_cmd_generic_timed` hands out: a zeroed struct that
        the driver filled in (`filled`, which leaves the pointer null) and an
        empty owned buffer. */
    constructor FromTemplate(codes: DriverCodes, filled: CmdStruct)
      requires Discriminants(codes)
      requires !filled.chanlistSet
      ensures Valid()
      ensures this.codes == codes && raw == filled && chanlist == []
      ensures Chanlist() == Returns(Option.None)
    {
      this.codes := codes;
      raw := filled;
      chanlist := [];
    }

    // -------------------------------------------------------------------
    // Getters. The plain getters return the stored field as it is, whatever
    // its value, and never panic; the source getters decode it with
    // `from_repr(..).expect(..)`, which panics on a code that is not a
    // variant of the phase's enum.

    function Subdev(): (subdev: Word)
      reads this
      ensures subdev == raw.subdev
    {
      raw.subdev
    }

    function StartArg(): (arg: Word)
      reads this
      ensures arg == raw.startArg
    {
      raw.startArg
    }

    function ScanBeginArg(): (arg: Word)
      reads this
      ensures arg == raw.scanBeginArg
    {
      raw.scanBeginArg
    }

    function ConvertArg(): (arg: Word)
      reads this
      ensures arg == raw.convertArg
    {
      raw.convertArg
    }

    function ScanEndArg(): (arg: Word)
      reads this
      ensures arg == raw.scanEndArg
    {
      raw.scanEndArg
    }

    function StopArg(): (arg: Word)
      reads this
      ensures arg == raw.stopArg
    {
      raw.stopArg
    }

    function StartSrc(): (r: Outcome<StartTrigger>)
      reads this
      ensures r.Returns? <==> raw.startSrc in StartCodes(codes)
      ensures r.Returns? ==> StartRepr(codes, r.value) == raw.startSrc
    {
      match StartFromRepr(codes, raw.startSrc)
      case None => Panics
      case Some(s) => Returns(s)
    }

    function ScanBeginSrc(): (r: Outcome<ScanBeginTrigger>)
      reads this
      ensures r.Returns? <==> raw.scanBeginSrc in ScanBeginCodes(codes)
      ensures r.Returns? ==> ScanBeginRepr(codes, r.value) == raw.scanBeginSrc
    {
      match ScanBeginFromRepr(codes, raw.scanBeginSrc)
      case None => Panics
      case Some(s) => Returns(s)
    }

    function ConvertSrc(): (r: Outcome<ConvertTrigger>)
      reads this
      ensures r.Returns? <==> raw.convertSrc in ConvertCodes(codes)
      ensures r.Returns? ==> ConvertRepr(codes, r.value) == raw.convertSrc
    {
      match ConvertFromRepr(codes, raw.convertSrc)
      case None => Panics
      case Some(s) => Returns(s)
    }

    function ScanEndSrc(): (r: Outcome<ScanEndTrigger>)
      reads this
      ensures r.Returns? <==> raw.scanEndSrc in ScanEndCodes(codes)
      ensures r.Returns? ==> ScanEndRepr(codes, r.value) == raw.scanEndSrc
    {
      match ScanEndFromRepr(codes, raw.scanEndSrc)
      case None => Panics
      case Some(s) => Returns(s)
    }

    function StopSrc(): (r: Outcome<StopTrigger>)
      reads this
      ensures r.Returns? <==> raw.stopSrc in StopCodes(codes)
      ensures r.Returns? ==> StopRepr(codes, r.value) == raw.stopSrc
    {
      match StopFromRepr(codes, raw.stopSrc)
      case None => Panics
      case Some(s) => Returns(s)
    }

    // -------------------------------------------------------------------
    // Setters: each overwrites its own fields of the struct and nothing else.

    method SetSubdev(subdev: Word)
      requires Valid()
      modifies this
      ensures Valid()
      ensures raw == old(raw).(subdev := subdev) && chanlist == old(chanlist)
      ensures Subdev() == subdev
    {
      raw := raw.(subdev := subdev);
    }

    method SetStart(src: StartTrigger, arg: Word)
      requires Valid()
      modifies this
      ensures Valid()
      ensures raw == old(raw).(startSrc := StartRepr(codes, src), startArg := arg)
      ensures chanlist == old(chanlist)
      ensures StartSrc() == Returns(src) && StartArg() == arg
    {
      raw := raw.(startSrc := StartRepr(codes, src));
      raw := raw.(startArg := arg);
      StartCodeMap(codes);
    }

    method SetScanBegin(src: ScanBeginTrigger, arg: Word)
      requires Valid()
      modifies this
      ensures Valid()
      ensures raw == old(raw).(scanBeginSrc := ScanBeginRepr(codes, src), scanBeginArg := arg)
      ensures chanlist == old(chanlist)
      ensures ScanBeginSrc() == Returns(src) && ScanBeginArg() == arg
    {
      raw := raw.(scanBeginSrc := ScanBeginRepr(codes, src));
      raw := raw.(scanBeginArg := arg);
      ScanBeginCodeMap(codes);
    }

    method SetConvert(src: ConvertTrigger, arg: Word)
      requires Valid()
      modifies this
      ensures Valid()
      ensures raw == old(raw).(convertSrc := ConvertRepr(codes, src), convertArg := arg)
      ensures chanlist == old(chanlist)
      ensures ConvertSrc() == Returns(src) && ConvertArg() == arg
    {
      raw := raw.(convertSrc := ConvertRepr(codes, src));
      raw := raw.(convertArg := arg);
      ConvertCodeMap(codes);
    }

    method SetScanEnd(src: ScanEndTrigger, arg: Word)
      requires Valid()
      modifies this
      ensures Valid()
      ensures raw == old(raw).(scanEndSrc := ScanEndRepr(codes, src), scanEndArg := arg)
      ensures chanlist == old(chanlist)
      ensures ScanEndSrc() == Returns(src) && ScanEndArg() == arg
    {
      raw := raw.(scanEndSrc := ScanEndRepr(codes, src));
      raw := raw.(scanEndArg := arg);
      ScanEndCodeMap(codes);
    }

    method SetStop(src: StopTrigger, arg: Word)
      requires Valid()
      modifies this
      ensures Valid()
      ensures raw == old(raw).(stopSrc := StopRepr(codes, src), stopArg := arg)
      ensures chanlist == old(chanlist)
      ensures StopSrc() == Returns(src) && StopArg() == arg
    {
      raw := raw.(stopSrc := StopRepr(codes, src));
      raw := raw.(stopArg := arg);
      StopCodeMap(codes);
    }

    // -------------------------------------------------------------------
    // The channel list.

    /** `set_chanlist`: rebuild the owned buffer, then point the struct at it
        and set the length. The length conversion to `c_uint` unwraps, so the
        list must have fewer than 2^32 entries. */
    method SetChanlist(refs: seq<ChanRef>)
      requires Valid()
      requires |refs| < 0x1_0000_0000
      modifies this
      ensures Valid()
      ensures chanlist == PackList(codes, refs)
      ensures raw == old(raw).(chanlistSet := true, chanlistLen := |refs| as U32)
      ensures ARefCodesFit(codes) && (forall i :: 0 <= i < |refs| ==> InRange(refs[i]))
              ==> Chanlist() == Returns(Some(refs))
    {
      if ARefCodesFit(codes) && forall i | 0 <= i < |refs| :: InRange(refs[i]) {
        InstalledDecodes(codes, raw, refs);
      }
      chanlist := PackList(codes, refs);
      raw := raw.(chanlistSet := true, chanlistLen := |refs| as U32);
    }

    /** `chanlist()`: None while the pointer is null; otherwise the decoding of
        the `chanlist_len` words the pointer sees, which panics if one of them
        does not decode. */
    function Chanlist(): (r: Outcome<Option<seq<ChanRef>>>)
      reads this
      requires Valid()
      ensures r == Returns(Option.None) <==> !raw.chanlistSet
      ensures raw.chanlistSet ==>
                (r.Returns? <==> forall i :: 0 <= i < |chanlist| ==> Unpack(codes, chanlist[i]).Returns?)
      ensures r.Returns? && r.value.Some? ==>
                && |r.value.value| == |chanlist|
                && forall i :: 0 <= i < |chanlist| ==> Unpack(codes, chanlist[i]) == Returns(r.value.value[i])
    {
      DecodeChanlist(codes, raw, chanlist)
    }
  }

  /** What `chanlist()` reads through the struct's pointer: nothing while it
      is null, otherwise the first `chanlist_len` words of the buffer. */
  function DecodeChanlist(c: DriverCodes, s: CmdStruct, buf: seq<Word>): (r: Outcome<Option<seq<ChanRef>>>)
    requires s.chanlistSet ==> s.chanlistLen as int == |buf|
    ensures r == Returns(Option.None) <==> !s.chanlistSet
    ensures s.chanlistSet ==>
              (r.Returns? <==> forall i :: 0 <= i < |buf| ==> Unpack(c, buf[i]).Returns?)
    ensures r.Returns? && r.value.Some? ==>
              && |r.value.value| == |buf|
              && forall i :: 0 <= i < |buf| ==> Unpack(c, buf[i]) == Returns(r.value.value[i])
  {
    assert s.chanlistSet ==> buf[..s.chanlistLen] == buf;
    if !s.chanlistSet then Returns(Option.None)
    else
      match UnpackList(c, buf[..s.chanlistLen])
      case Panics => Panics
      case Returns(refs) => Returns(Some(refs))
  }

  /** After `set_chanlist(refs)` the struct points at the packing of `refs`
      with its length, and for in-range triples that view decodes to `refs`. */
  lemma InstalledDecodes(c: DriverCodes, s: CmdStruct, refs: seq<ChanRef>)
    requires Distinct(ARefTable(c)) && ARefCodesFit(c)
    requires |refs| < 0x1_0000_0000
    requires forall i :: 0 <= i < |refs| ==> InRange(refs[i])
    ensures DecodeChanlist(c, s.(chanlistSet := true, chanlistLen := |refs| as U32), PackList(c, refs))
            == Returns(Some(refs))
  {
    var ws := PackList(c, refs);
    assert ws[..|refs|] == ws;
    ListRoundTrip(c, refs);
  }

  /** Under the two-bit ARef assumption, a descriptor whose list is installed
      decodes it without panicking, and the decoded list packs back to exactly
      the owned buffer: the buffer and its decoding never drift apart. */
  lemma ChanlistConsistent(cmd: Cmd)
    requires cmd.Valid() && ARefCodesFit(cmd.codes)
    requires cmd.raw.chanlistSet
    ensures cmd.Chanlist().Returns? && cmd.Chanlist().value.Some?
    ensures PackList(cmd.codes, cmd.Chanlist().value.value) == cmd.chanlist
  {
    assert cmd.chanlist[..cmd.raw.chanlistLen] == cmd.chanlist;
    PackedListRoundTrip(cmd.codes, cmd.chanlist);
  }
}
