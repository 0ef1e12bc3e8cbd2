/** The closed enums of src/types.rs and their maps to driver codes.

    Every enum is declared with `#[EnumRepr(type = "c_uint")]`: each variant's
    discriminant is a driver constant, `repr` gives that code, and `from_repr`
    gives back the variant whose code it is, or None for any other code. The
    constants themselves (TRIG_*, AREF_*, UNIT_*, COMEDI_OOR_*) live in the
    driver's header and are not known here, so they are a `DriverCodes`
    parameter. The one thing the compiler guarantees about them is that no two
    variants of one enum share a discriminant: that is `Distinct` of the enum's
    table. Different enums may share a code (TRIG_FOLLOW, TRIG_OTHER, ...). */
module Types {
  import opened Outcomes

  /** A C `unsigned int`, the width of every code and field word. */
  type Word = bv32

  /** A C `unsigned int` used as a count. */
  newtype U32 = x: int | 0 <= x < 0x1_0000_0000

  datatype ARef = Ground | Common | Diff | Other
  datatype OORBehavior = NaN | Number
  datatype Unit = Volt | MiliAmper | None
  datatype StartTrigger = Now | Follow | Ext | Int | Other
  datatype ScanBeginTrigger = Timer | Follow | Ext | Other
  datatype ConvertTrigger = Now | Timer | Ext | Other
  datatype ScanEndTrigger = Count | Other
  datatype StopTrigger = Count | None | Other

  /** The driver header's constants, as far as the enums use them. */
  datatype DriverCodes = DriverCodes(
    trigNone: Word, trigNow: Word, trigFollow: Word, trigTimer: Word,
    trigCount: Word, trigExt: Word, trigInt: Word, trigOther: Word,
    arefGround: Word, arefCommon: Word, arefDiff: Word, arefOther: Word,
    oorNaN: Word, oorNumber: Word,
    unitVolt: Word, unitMA: Word, unitNone: Word)

  // ---------------------------------------------------------------------
  // The derived code maps, for any enum given as its (variant, code) table
  // in declaration order.

  /** No two variants of the table share a code (rustc rejects duplicate
      discriminants). */
  predicate Distinct<E>(table: seq<(E, Word)>) {
    forall i, j :: 0 <= i < j < |table| ==> table[i].1 != table[j].1
  }

  /** The codes a table declares. */
  function CodesOf<E>(table: seq<(E, Word)>): (codes: set<Word>)
    ensures forall i :: 0 <= i < |table| ==> table[i].1 in codes
    ensures forall x :: x in codes ==> exists i :: 0 <= i < |table| && table[i].1 == x
  {
    if table == [] then {}
    else
      var rest := CodesOf(table[1..]);
      assert forall i :: 1 <= i < |table| ==> table[i] == table[1..][i - 1];
      {table[0].1} + rest
  }

  /** With distinct codes, the table declares as many codes as variants. */
  lemma {:induction false} CodesOfDistinct<E>(table: seq<(E, Word)>)
    requires Distinct(table)
    ensures |CodesOf(table)| == |table|
  {
    if table != [] {
      var rest := table[1..];
      assert Distinct(rest) by {
        forall p, q | 0 <= p < q < |rest|
          ensures rest[p].1 != rest[q].1
        {
          assert rest[p] == table[p + 1] && rest[q] == table[q + 1];
        }
      }
      CodesOfDistinct(rest);
      forall i | 0 <= i < |rest| ensures rest[i].1 != table[0].1 {
        assert rest[i] == table[i + 1];
      }
    }
  }

  /** `from_repr`: the first variant in declaration order whose code is `x`;
      None exactly when the table declares no such code. */
  function FromRepr<E(==)>(table: seq<(E, Word)>, x: Word): (r: Option<E>)
    ensures r.Some? <==> x in CodesOf(table)
    ensures r.Some? ==> (r.value, x) in table
  {
    if table == [] then Option.None
    else if table[0].1 == x then Some(table[0].0)
    else FromRepr(table[1..], x)
  }

  /** With distinct codes, decoding the code of any variant gives that variant. */
  lemma {:induction false} FromReprOfCode<E>(table: seq<(E, Word)>, i: nat)
    requires Distinct(table)
    requires i < |table|
    ensures FromRepr(table, table[i].1) == Some(table[i].0)
  {
    if i > 0 {
      assert table[0].1 != table[i].1;
      assert Distinct(table[1..]) by {
        forall p, q | 0 <= p < q < |table| - 1
          ensures table[1..][p].1 != table[1..][q].1
        {
          assert table[1..][p] == table[p + 1] && table[1..][q] == table[q + 1];
        }
      }
      FromReprOfCode(table[1..], i - 1);
      assert table[1..][i - 1] == table[i];
    }
  }

  /** The same, for an entry given by value. */
  lemma FromReprOfEntry<E>(table: seq<(E, Word)>, v: E, x: Word)
    requires Distinct(table)
    requires (v, x) in table
    ensures FromRepr(table, x) == Some(v)
  {
    var i :| 0 <= i < |table| && table[i] == (v, x);
    FromReprOfCode(table, i);
  }

  // ---------------------------------------------------------------------
  // ARef (src/types.rs:10-15)

  /** The declaration: each variant with its driver constant. */
  function ARefTable(c: DriverCodes): seq<(ARef, Word)> {
    [(ARef.Ground, c.arefGround),
     (ARef.Common, c.arefCommon),
     (ARef.Diff, c.arefDiff),
     (ARef.Other, c.arefOther)]
  }

  /** `repr`: the variant's driver constant, as declared. */
  function ARefRepr(c: DriverCodes, a: ARef): (code: Word)
    ensures (a, code) in ARefTable(c)
  {
    match a
    case Ground => c.arefGround
    case Common => c.arefCommon
    case Diff => c.arefDiff
    case Other => c.arefOther
  }

  function ARefCodes(c: DriverCodes): set<Word> {
    CodesOf(ARefTable(c))
  }

  /** `from_repr`: Some exactly on the declared codes, and the variant it
      returns has the given code. */
  function ARefFromRepr(c: DriverCodes, x: Word): (r: Option<ARef>)
    ensures r.Some? <==> x in ARefCodes(c)
    ensures r.Some? ==> ARefRepr(c, r.value) == x
  {
    var t := ARefTable(c);
    var r := FromRepr(t, x);
    assert r.Some? ==> ARefRepr(c, r.value) == x by {
      if r.Some? {
        var k :| 0 <= k < |t| && t[k] == (r.value, x);
        assert k == 0 || k == 1 || k == 2 || k == 3;
      }
    }
    r
  }

  /** `ARef` has exactly four codes, and `from_repr` inverts `repr`. */
  lemma ARefCodeMap(c: DriverCodes)
    requires Distinct(ARefTable(c))
    ensures forall a :: ARefFromRepr(c, ARefRepr(c, a)) == Some(a)
    ensures |ARefCodes(c)| == 4
  {
    CodesOfDistinct(ARefTable(c));
    forall a ensures ARefFromRepr(c, ARefRepr(c, a)) == Some(a) {
      FromReprOfEntry(ARefTable(c), a, ARefRepr(c, a));
    }
  }

  // ---------------------------------------------------------------------
  // OORBehavior (src/types.rs:19-22)

  /** The declaration: each variant with its driver constant. */
  function OORTable(c: DriverCodes): seq<(OORBehavior, Word)> {
    [(OORBehavior.NaN, c.oorNaN),
     (OORBehavior.Number, c.oorNumber)]
  }

  /** `repr`: the variant's driver constant, as declared. */
  function OORRepr(c: DriverCodes, b: OORBehavior): (code: Word)
    ensures (b, code) in OORTable(c)
  {
    match b
    case NaN => c.oorNaN
    case Number => c.oorNumber
  }

  function OORCodes(c: DriverCodes): set<Word> {
    CodesOf(OORTable(c))
  }

  /** `from_repr`: Some exactly on the declared codes, and the variant it
      returns has the given code. */
  function OORFromRepr(c: DriverCodes, x: Word): (r: Option<OORBehavior>)
    ensures r.Some? <==> x in OORCodes(c)
    ensures r.Some? ==> OORRepr(c, r.value) == x
  {
    var t := OORTable(c);
    var r := FromRepr(t, x);
    assert r.Some? ==> OORRepr(c, r.value) == x by {
      if r.Some? {
        var k :| 0 <= k < |t| && t[k] == (r.value, x);
        assert k == 0 || k == 1;
      }
    }
    r
  }

  /** `OORBehavior` has exactly two codes, and `from_repr` inverts `repr`. */
  lemma OORCodeMap(c: DriverCodes)
    requires Distinct(OORTable(c))
    ensures forall b :: OORFromRepr(c, OORRepr(c, b)) == Some(b)
    ensures |OORCodes(c)| == 2
  {
    CodesOfDistinct(OORTable(c));
    forall b ensures OORFromRepr(c, OORRepr(c, b)) == Some(b) {
      FromReprOfEntry(OORTable(c), b, OORRepr(c, b));
    }
  }

  // ---------------------------------------------------------------------
  // Unit (src/types.rs:26-30)

  /** The declaration: each variant with its driver constant. */
  function UnitTable(c: DriverCodes): seq<(Unit, Word)> {
    [(Unit.Volt, c.unitVolt),
     (Unit.MiliAmper, c.unitMA),
     (Unit.None, c.unitNone)]
  }

  /** `repr`: the variant's driver constant, as declared. */
  function UnitRepr(c: DriverCodes, u: Unit): (code: Word)
    ensures (u, code) in UnitTable(c)
  {
    match u
    case Volt => c.unitVolt
    case MiliAmper => c.unitMA
    case None => c.unitNone
  }

  function UnitCodes(c: DriverCodes): set<Word> {
    CodesOf(UnitTable(c))
  }

  /** `from_repr`: Some exactly on the declared codes, and the variant it
      returns has the given code. */
  function UnitFromRepr(c: DriverCodes, x: Word): (r: Option<Unit>)
    ensures r.Some? <==> x in UnitCodes(c)
    ensures r.Some? ==> UnitRepr(c, r.value) == x
  {
    var t := UnitTable(c);
    var r := FromRepr(t, x);
    assert r.Some? ==> UnitRepr(c, r.value) == x by {
      if r.Some? {
        var k :| 0 <= k < |t| && t[k] == (r.value, x);
        assert k == 0 || k == 1 || k == 2;
      }
    }
    r
  }

  /** `Unit` has exactly three codes, and `from_repr` inverts `repr`. */
  lemma UnitCodeMap(c: DriverCodes)
    requires Distinct(UnitTable(c))
    ensures forall u :: UnitFromRepr(c, UnitRepr(c, u)) == Some(u)
    ensures |UnitCodes(c)| == 3
  {
    CodesOfDistinct(UnitTable(c));
    forall u ensures UnitFromRepr(c, UnitRepr(c, u)) == Some(u) {
      FromReprOfEntry(UnitTable(c), u, UnitRepr(c, u));
    }
  }

  // ---------------------------------------------------------------------
  // StartTrigger (src/types.rs:34-40)

  /** The declaration: each variant with its driver constant. */
  function StartTable(c: DriverCodes): seq<(StartTrigger, Word)> {
    [(StartTrigger.Now, c.trigNow),
     (StartTrigger.Follow, c.trigFollow),
     (StartTrigger.Ext, c.trigExt),
     (StartTrigger.Int, c.trigInt),
     (StartTrigger.Other, c.trigOther)]
  }

  /** `repr`: the variant's driver constant, as declared. */
  function StartRepr(c: DriverCodes, s: StartTrigger): (code: Word)
    ensures (s, code) in StartTable(c)
  {
    match s
    case Now => c.trigNow
    case Follow => c.trigFollow
    case Ext => c.trigExt
    case Int => c.trigInt
    case Other => c.trigOther
  }

  function StartCodes(c: DriverCodes): set<Word> {
    CodesOf(StartTable(c))
  }

  /** `from_repr`: Some exactly on the declared codes, and the variant it
      returns has the given code. */
  function StartFromRepr(c: DriverCodes, x: Word): (r: Option<StartTrigger>)
    ensures r.Some? <==> x in StartCodes(c)
    ensures r.Some? ==> StartRepr(c, r.value) == x
  {
    var t := StartTable(c);
    var r := FromRepr(t, x);
    assert r.Some? ==> StartRepr(c, r.value) == x by {
      if r.Some? {
        var k :| 0 <= k < |t| && t[k] == (r.value, x);
        assert k == 0 || k == 1 || k == 2 || k == 3 || k == 4;
      }
    }
    r
  }

  /** `StartTrigger` has exactly five codes, and `from_repr` inverts `repr`. */
  lemma StartCodeMap(c: DriverCodes)
    requires Distinct(StartTable(c))
    ensures forall s :: StartFromRepr(c, StartRepr(c, s)) == Some(s)
    ensures |StartCodes(c)| == 5
  {
    CodesOfDistinct(StartTable(c));
    forall s ensures StartFromRepr(c, StartRepr(c, s)) == Some(s) {
      FromReprOfEntry(StartTable(c), s, StartRepr(c, s));
    }
  }

  // ---------------------------------------------------------------------
  // ScanBeginTrigger (src/types.rs:44-49)

  /** The declaration: each variant with its driver constant. */
  function ScanBeginTable(c: DriverCodes): seq<(ScanBeginTrigger, Word)> {
    [(ScanBeginTrigger.Timer, c.trigTimer),
     (ScanBeginTrigger.Follow, c.trigFollow),
     (ScanBeginTrigger.Ext, c.trigExt),
     (ScanBeginTrigger.Other, c.trigOther)]
  }

  /** `repr`: the variant's driver constant, as declared. */
  function ScanBeginRepr(c: DriverCodes, s: ScanBeginTrigger): (code: Word)
    ensures (s, code) in ScanBeginTable(c)
  {
    match s
    case Timer => c.trigTimer
    case Follow => c.trigFollow
    case Ext => c.trigExt
    case Other => c.trigOther
  }

  function ScanBeginCodes(c: DriverCodes): set<Word> {
    CodesOf(ScanBeginTable(c))
  }

  /** `from_repr`: Some exactly on the declared codes, and the variant it
      returns has the given code. */
  function ScanBeginFromRepr(c: DriverCodes, x: Word): (r: Option<ScanBeginTrigger>)
    ensures r.Some? <==> x in ScanBeginCodes(c)
    ensures r.Some? ==> ScanBeginRepr(c, r.value) == x
  {
    var t := ScanBeginTable(c);
    var r := FromRepr(t, x);
    assert r.Some? ==> ScanBeginRepr(c, r.value) == x by {
      if r.Some? {
        var k :| 0 <= k < |t| && t[k] == (r.value, x);
        assert k == 0 || k == 1 || k == 2 || k == 3;
      }
    }
    r
  }

  /** `ScanBeginTrigger` has exactly four codes, and `from_repr` inverts `repr`. */
  lemma ScanBeginCodeMap(c: DriverCodes)
    requires Distinct(ScanBeginTable(c))
    ensures forall s :: ScanBeginFromRepr(c, ScanBeginRepr(c, s)) == Some(s)
    ensures |ScanBeginCodes(c)| == 4
  {
    CodesOfDistinct(ScanBeginTable(c));
    forall s ensures ScanBeginFromRepr(c, ScanBeginRepr(c, s)) == Some(s) {
      FromReprOfEntry(ScanBeginTable(c), s, ScanBeginRepr(c, s));
    }
  }

  // ---------------------------------------------------------------------
  // ConvertTrigger (src/types.rs:53-58)

  /** The declaration: each variant with its driver constant. */
  function ConvertTable(c: DriverCodes): seq<(ConvertTrigger, Word)> {
    [(ConvertTrigger.Now, c.trigNow),
     (ConvertTrigger.Timer, c.trigTimer),
     (ConvertTrigger.Ext, c.trigExt),
     (ConvertTrigger.Other, c.trigOther)]
  }

  /** `repr`: the variant's driver constant, as declared. */
  function ConvertRepr(c: DriverCodes, s: ConvertTrigger): (code: Word)
    ensures (s, code) in ConvertTable(c)
  {
    match s
    case Now => c.trigNow
    case Timer => c.trigTimer
    case Ext => c.trigExt
    case Other => c.trigOther
  }

  function ConvertCodes(c: DriverCodes): set<Word> {
    CodesOf(ConvertTable(c))
  }

  /** `from_repr`: Some exactly on the declared codes, and the variant it
      returns has the given code. */
  function ConvertFromRepr(c: DriverCodes, x: Word): (r: Option<ConvertTrigger>)
    ensures r.Some? <==> x in ConvertCodes(c)
    ensures r.Some? ==> ConvertRepr(c, r.value) == x
  {
    var t := ConvertTable(c);
    var r := FromRepr(t, x);
    assert r.Some? ==> ConvertRepr(c, r.value) == x by {
      if r.Some? {
        var k :| 0 <= k < |t| && t[k] == (r.value, x);
        assert k == 0 || k == 1 || k == 2 || k == 3;
      }
    }
    r
  }

  /** `ConvertTrigger` has exactly four codes, and `from_repr` inverts `repr`. */
  lemma ConvertCodeMap(c: DriverCodes)
    requires Distinct(ConvertTable(c))
    ensures forall s :: ConvertFromRepr(c, ConvertRepr(c, s)) == Some(s)
    ensures |ConvertCodes(c)| == 4
  {
    CodesOfDistinct(ConvertTable(c));
    forall s ensures ConvertFromRepr(c, ConvertRepr(c, s)) == Some(s) {
      FromReprOfEntry(ConvertTable(c), s, ConvertRepr(c, s));
    }
  }

  // ---------------------------------------------------------------------
  // ScanEndTrigger (src/types.rs:62-65)

  /** The declaration: each variant with its driver constant. */
  function ScanEndTable(c: DriverCodes): seq<(ScanEndTrigger, Word)> {
    [(ScanEndTrigger.Count, c.trigCount),
     (ScanEndTrigger.Other, c.trigOther)]
  }

  /** `repr`: the variant's driver constant, as declared. */
  function ScanEndRepr(c: DriverCodes, s: ScanEndTrigger): (code: Word)
    ensures (s, code) in ScanEndTable(c)
  {
    match s
    case Count => c.trigCount
    case Other => c.trigOther
  }

  function ScanEndCodes(c: DriverCodes): set<Word> {
    CodesOf(ScanEndTable(c))
  }

  /** `from_repr`: Some exactly on the declared codes, and the variant it
      returns has the given code. */
  function ScanEndFromRepr(c: DriverCodes, x: Word): (r: Option<ScanEndTrigger>)
    ensures r.Some? <==> x in ScanEndCodes(c)
    ensures r.Some? ==> ScanEndRepr(c, r.value) == x
  {
    var t := ScanEndTable(c);
    var r := FromRepr(t, x);
    assert r.Some? ==> ScanEndRepr(c, r.value) == x by {
      if r.Some? {
        var k :| 0 <= k < |t| && t[k] == (r.value, x);
        assert k == 0 || k == 1;
      }
    }
    r
  }

  /** `ScanEndTrigger` has exactly two codes, and `from_repr` inverts `repr`. */
  lemma ScanEndCodeMap(c: DriverCodes)
    requires Distinct(ScanEndTable(c))
    ensures forall s :: ScanEndFromRepr(c, ScanEndRepr(c, s)) == Some(s)
    ensures |ScanEndCodes(c)| == 2
  {
    CodesOfDistinct(ScanEndTable(c));
    forall s ensures ScanEndFromRepr(c, ScanEndRepr(c, s)) == Some(s) {
      FromReprOfEntry(ScanEndTable(c), s, ScanEndRepr(c, s));
    }
  }

  // ---------------------------------------------------------------------
  // StopTrigger (src/types.rs:69-73)

  /** The declaration: each variant with its driver constant. */
  function StopTable(c: DriverCodes): seq<(StopTrigger, Word)> {
    [(StopTrigger.Count, c.trigCount),
     (StopTrigger.None, c.trigNone),
     (StopTrigger.Other, c.trigOther)]
  }

  /** `repr`: the variant's driver constant, as declared. */
  function StopRepr(c: DriverCodes, s: StopTrigger): (code: Word)
    ensures (s, code) in StopTable(c)
  {
    match s
    case Count => c.trigCount
    case None => c.trigNone
    case Other => c.trigOther
  }

  function StopCodes(c: DriverCodes): set<Word> {
    CodesOf(StopTable(c))
  }

  /** `from_repr`: Some exactly on the declared codes, and the variant it
      returns has the given code. */
  function StopFromRepr(c: DriverCodes, x: Word): (r: Option<StopTrigger>)
    ensures r.Some? <==> x in StopCodes(c)
    ensures r.Some? ==> StopRepr(c, r.value) == x
  {
    var t := StopTable(c);
    var r := FromRepr(t, x);
    assert r.Some? ==> StopRepr(c, r.value) == x by {
      if r.Some? {
        var k :| 0 <= k < |t| && t[k] == (r.value, x);
        assert k == 0 || k == 1 || k == 2;
      }
    }
    r
  }

  /** `StopTrigger` has exactly three codes, and `from_repr` inverts `repr`. */
  lemma StopCodeMap(c: DriverCodes)
    requires Distinct(StopTable(c))
    ensures forall s :: StopFromRepr(c, StopRepr(c, s)) == Some(s)
    ensures |StopCodes(c)| == 3
  {
    CodesOfDistinct(StopTable(c));
    forall s ensures StopFromRepr(c, StopRepr(c, s)) == Some(s) {
      FromReprOfEntry(StopTable(c), s, StopRepr(c, s));
    }
  }

  // ---------------------------------------------------------------------
  // What the compiler guarantees, and what the codec assumes.

  /** Every enum of src/types.rs has pairwise distinct discriminants. */
  predicate Discriminants(c: DriverCodes) {
    && Distinct(ARefTable(c)) && Distinct(OORTable(c)) && Distinct(UnitTable(c))
    && Distinct(StartTable(c)) && Distinct(ScanBeginTable(c)) && Distinct(ConvertTable(c))
    && Distinct(ScanEndTable(c)) && Distinct(StopTable(c))
  }

  /** The assumption behind the channel-reference codec: every ARef code fits
      in the two bits that `cr_pack` keeps. */
  predicate ARefCodesFit(c: DriverCodes) {
    c.arefGround < 4 && c.arefCommon < 4 && c.arefDiff < 4 && c.arefOther < 4
  }

  /** One driver code serves several phase enums: the word that `set_start`
      stores for Follow reads back as Follow in the scan-begin enum, Now reads
      back as Now in the convert enum, and the scan-end Count reads back as
      Count in the stop enum. A raw code is therefore meaningful only together
      with the phase whose field holds it. */
  lemma SharedTriggerCodes(c: DriverCodes)
    requires Distinct(ScanBeginTable(c)) && Distinct(ConvertTable(c)) && Distinct(StopTable(c))
    ensures ScanBeginFromRepr(c, StartRepr(c, StartTrigger.Follow)) == Some(ScanBeginTrigger.Follow)
    ensures ConvertFromRepr(c, StartRepr(c, StartTrigger.Now)) == Some(ConvertTrigger.Now)
    ensures StopFromRepr(c, ScanEndRepr(c, ScanEndTrigger.Count)) == Some(StopTrigger.Count)
  {
    assert ScanBeginFromRepr(c, c.trigFollow) == Some(ScanBeginTrigger.Follow) by {
      FromReprOfEntry(ScanBeginTable(c), ScanBeginTrigger.Follow, c.trigFollow);
    }
    assert ConvertFromRepr(c, c.trigNow) == Some(ConvertTrigger.Now) by {
      FromReprOfEntry(ConvertTable(c), ConvertTrigger.Now, c.trigNow);
    }
    assert StopFromRepr(c, c.trigCount) == Some(StopTrigger.Count) by {
      FromReprOfEntry(StopTable(c), StopTrigger.Count, c.trigCount);
    }
  }

  /** The code of Other (`TRIG_OTHER`) reads back as Other in the three
      phases that start an acquisition, a scan and a conversion. */
  lemma OtherInBeginPhases(c: DriverCodes)
    requires Distinct(StartTable(c)) && Distinct(ScanBeginTable(c)) && Distinct(ConvertTable(c))
    ensures StartFromRepr(c, c.trigOther) == Some(StartTrigger.Other)
    ensures ScanBeginFromRepr(c, c.trigOther) == Some(ScanBeginTrigger.Other)
    ensures ConvertFromRepr(c, c.trigOther) == Some(ConvertTrigger.Other)
  {
    var o := c.trigOther;
    assert StartFromRepr(c, o) == Some(StartTrigger.Other) by {
      FromReprOfEntry(StartTable(c), StartTrigger.Other, o);
    }
    assert ScanBeginFromRepr(c, o) == Some(ScanBeginTrigger.Other) by {
      FromReprOfEntry(ScanBeginTable(c), ScanBeginTrigger.Other, o);
    }
    assert ConvertFromRepr(c, o) == Some(ConvertTrigger.Other) by {
      FromReprOfEntry(ConvertTable(c), ConvertTrigger.Other, o);
    }
  }

  /** The code of Other reads back as Other in the two phases that end a scan
      and the acquisition as well. */
  lemma OtherInEndPhases(c: DriverCodes)
    requires Distinct(ScanEndTable(c)) && Distinct(StopTable(c))
    ensures ScanEndFromRepr(c, c.trigOther) == Some(ScanEndTrigger.Other)
    ensures StopFromRepr(c, c.trigOther) == Some(StopTrigger.Other)
  {
    var o := c.trigOther;
    assert ScanEndFromRepr(c, o) == Some(ScanEndTrigger.Other) by {
      FromReprOfEntry(ScanEndTable(c), ScanEndTrigger.Other, o);
    }
    assert StopFromRepr(c, o) == Some(StopTrigger.Other) by {
      FromReprOfEntry(StopTable(c), StopTrigger.Other, o);
    }
  }
}
