# comedilib (Rust bindings): command descriptor, channel codec, enums, flags

This project models the part of the `comedilib` Rust crate that does its own
work instead of handing it to the C library:

- **Channel-reference codec** (`cr_pack` / `cr_unpack`). A (channel, range,
  aref) triple is packed into one 32-bit word: channel in bits 0-7, range in
  bits 16-23, the ARef code in bits 24-25. Unpacking shifts and masks the
  fields and decodes the ARef code with `from_repr(..).unwrap()`.
- **The command descriptor `Cmd`**. It owns a C `comedi_cmd` struct that it
  updates in place, and a `Vec<c_uint>` of packed channel references. The
  struct's `chanlist` pointer and `chanlist_len` field view that buffer.
  It has phase setters, getters that decode trigger-source codes (and panic
  on a code outside the phase's enum), `set_chanlist` and `chanlist()`.
- **The closed enums** of `src/types.rs` (`ARef`, `OORBehavior`, `Unit` and
  the five per-phase trigger enums). Each maps to driver codes with
  `repr` / `from_repr`.
- **The subdevice-flag bitfield `SDF`**: `new`, `is_set` (AND is non-zero)
  and `set` (OR in place).

Files:

| file | module | what |
|---|---|---|
| `outcomes.dfy` | `Outcomes` | `Option`, and `Outcome` (returns a value or panics) |
| `types.dfy` | `Types` | the enums, the driver-code record `DriverCodes`, the derived code maps |
| `codec.dfy` | `Codec` | `Pack`, `Unpack` and their liftings to channel lists |
| `command.dfy` | `Command` | class `Cmd` |
| `flags.dfy` | `Flags` | class `SDF` |

How the model treats what the crate takes from elsewhere:

- The driver constants (`TRIG_*`, `AREF_*`, `UNIT_*`, `COMEDI_OOR_*`) are
  defined in the `comedilib_sys` crate, so their values are unknown here.
  They are a `DriverCodes` parameter. The only fact the Rust compiler
  guarantees about them is that no two variants of one enum share a
  discriminant. `Distinct` states this for each enum's (variant, code)
  table, and `Discriminants` collects it for all eight enums.
- The channel codec also needs every ARef code to be below 4. This is the
  assumption `ARefCodesFit`. Every result that needs it says so in its
  `requires`.
- A panic (`expect` or `unwrap` on `None`) is modelled as the result
  `Outcome.Panics`, not as a precondition. The one exception is the length
  conversion in `set_chanlist`, which depends only on the caller's
  argument. It is a `requires` of `Cmd.SetChanlist`.
- The `chanlist` pointer of the C struct is modelled as `raw.chanlistSet`.
  Once set, it always points at the descriptor's own buffer, because only
  `set_chanlist` writes it, and it writes the buffer and the pointer
  together. The class invariant `Cmd.Valid` says that, once the pointer is
  set, `chanlist_len` equals the buffer's length. This invariant is what keeps
  `chanlist()` from reading past the buffer.
- A `Cmd` is created by `Comedi::get_cmd_generic_timed`: a zeroed struct,
  filled in by the driver, and an empty buffer. The driver call is not
  modelled. The constructor `Cmd.FromTemplate` takes the filled-in struct
  as an argument. It assumes the driver leaves the `chanlist` pointer null,
  because the crate gives it no buffer to point at.

## Model

| member | source | states |
|---|---|---|
| `Types.CodesOf` | src/types.rs:8-9 | the codes an enum declares: every declared discriminant is in the set, and nothing else is |
| `Types.CodesOfDistinct` | src/types.rs:8-9 | with pairwise distinct discriminants (rustc's rule), an enum declares exactly as many codes as it has variants |
| `Types.FromRepr` | src/types.rs:8-9 | derived `from_repr` = first variant in declaration order whose code matches; it returns `Some` exactly when the code is declared, and then a variant declared with that code |
| `Types.FromReprOfCode` | src/types.rs:8-15 | when the codes are pairwise distinct, decoding the code of the i-th declared variant gives that variant back |
| `Types.FromReprOfEntry` | src/types.rs:8-15 | the same for any declared (variant, code) pair: `from_repr(code) == Some(variant)` |
| `Types.ARefRepr` | src/types.rs:10-15 | `ARef::repr` gives the variant's driver constant as declared: `(v, repr(v))` is an entry of the declaration |
| `Types.ARefFromRepr` | src/types.rs:10-15 | `ARef::from_repr` is `Some` exactly on the four ARef codes, and what it returns has the given code |
| `Types.ARefCodeMap` | src/types.rs:10-15 | `ARef` has exactly four distinct codes, and `from_repr(repr(a)) == Some(a)` for every variant |
| `Types.OORRepr` | src/types.rs:19-22 | `OORBehavior::repr` gives the variant's driver constant as declared: `(v, repr(v))` is an entry of the declaration |
| `Types.OORFromRepr` | src/types.rs:19-22 | `OORBehavior::from_repr` is `Some` exactly on its two codes and inverts `repr` there |
| `Types.OORCodeMap` | src/types.rs:19-22 | `OORBehavior` has exactly two distinct codes (NaN, Number), and `from_repr(repr(b)) == Some(b)` |
| `Types.UnitRepr` | src/types.rs:26-30 | `Unit::repr` gives the variant's driver constant as declared: `(v, repr(v))` is an entry of the declaration |
| `Types.UnitFromRepr` | src/types.rs:26-30 | `Unit::from_repr` is `Some` exactly on its three codes and inverts `repr` there |
| `Types.UnitCodeMap` | src/types.rs:26-30 | `Unit` has exactly three distinct codes (Volt, MiliAmper, None), and `from_repr(repr(u)) == Some(u)` |
| `Types.StartRepr` | src/types.rs:34-40 | `StartTrigger::repr` gives the variant's driver constant as declared: `(v, repr(v))` is an entry of the declaration |
| `Types.StartFromRepr` | src/types.rs:34-40 | `StartTrigger::from_repr` is `Some` exactly on its five codes and inverts `repr` there |
| `Types.StartCodeMap` | src/types.rs:34-40 | `StartTrigger` has exactly five distinct codes, and `from_repr(repr(s)) == Some(s)` |
| `Types.ScanBeginRepr` | src/types.rs:44-49 | `ScanBeginTrigger::repr` gives the variant's driver constant as declared: `(v, repr(v))` is an entry of the declaration |
| `Types.ScanBeginFromRepr` | src/types.rs:44-49 | `ScanBeginTrigger::from_repr` is `Some` exactly on its four codes and inverts `repr` there |
| `Types.ScanBeginCodeMap` | src/types.rs:44-49 | `ScanBeginTrigger` has exactly four distinct codes, and `from_repr(repr(s)) == Some(s)` |
| `Types.ConvertRepr` | src/types.rs:53-58 | `ConvertTrigger::repr` gives the variant's driver constant as declared: `(v, repr(v))` is an entry of the declaration |
| `Types.ConvertFromRepr` | src/types.rs:53-58 | `ConvertTrigger::from_repr` is `Some` exactly on its four codes and inverts `repr` there |
| `Types.ConvertCodeMap` | src/types.rs:53-58 | `ConvertTrigger` has exactly four distinct codes, and `from_repr(repr(s)) == Some(s)` |
| `Types.ScanEndRepr` | src/types.rs:62-65 | `ScanEndTrigger::repr` gives the variant's driver constant as declared: `(v, repr(v))` is an entry of the declaration |
| `Types.ScanEndFromRepr` | src/types.rs:62-65 | `ScanEndTrigger::from_repr` is `Some` exactly on its two codes and inverts `repr` there |
| `Types.ScanEndCodeMap` | src/types.rs:62-65 | `ScanEndTrigger` has exactly two distinct codes, and `from_repr(repr(s)) == Some(s)` |
| `Types.StopRepr` | src/types.rs:69-73 | `StopTrigger::repr` gives the variant's driver constant as declared: `(v, repr(v))` is an entry of the declaration |
| `Types.StopFromRepr` | src/types.rs:69-73 | `StopTrigger::from_repr` is `Some` exactly on its three codes and inverts `repr` there |
| `Types.StopCodeMap` | src/types.rs:69-73 | `StopTrigger` has exactly three distinct codes, and `from_repr(repr(s)) == Some(s)` |
| `Types.SharedTriggerCodes` | src/types.rs:34-73 | one driver code decodes in several phase enums: the code `set_start` stores for Follow reads back as ScanBegin's Follow, Start's Now as Convert's Now, and ScanEnd's Count as Stop's Count, so a raw code means something only together with the field that holds it |
| `Types.OtherInBeginPhases` | src/types.rs:34-58 | the code of `Other` (TRIG_OTHER) decodes as `Other` in the start, scan-begin and convert enums |
| `Types.OtherInEndPhases` | src/types.rs:62-73 | the code of `Other` decodes as `Other` in the scan-end and stop enums |
| `Codec.Pack` | src/lib.rs:275-277 | the packed word has no bits outside 0-7, 16-23 and 24-25; its channel field is the channel's low 8 bits, its range field the range's low 8 bits, its aref field the aref code's low 2 bits |
| `Codec.Unpack` | src/lib.rs:279-285 | unpacking panics exactly when bits 24-25 are not an ARef code; otherwise channel and range are at most 255 and the returned aref has the code in bits 24-25 |
| `Codec.UnpackFields` | src/lib.rs:279-285 | a word whose three fields hold an in-range triple unpacks to exactly that triple, whatever its other bits |
| `Codec.PackUnpack` | src/lib.rs:275-285 | round trip: for channel and range at most 255, with distinct ARef codes below 4, `cr_unpack(cr_pack(c, r, a)) == (c, r, a)` |
| `Codec.UnpackPack` | src/lib.rs:275-285 | whatever `cr_unpack` returns packs back to the word's field bits |
| `Codec.PackedWordRoundTrip` | src/lib.rs:275-285 | with distinct ARef codes below 4, a word with no bits outside the fields unpacks without panicking and packs back to itself |
| `Codec.PackTruncates` | src/lib.rs:276 | `cr_pack` depends only on the low 8 bits of channel and range |
| `Codec.PackChannelWraps` | src/lib.rs:276 | `cr_pack(c + 256, r, a) == cr_pack(c, r, a)` |
| `Codec.PackRangeWraps` | src/lib.rs:276 | `cr_pack(c, r + 256, a) == cr_pack(c, r, a)` |
| `Codec.UnpackNeverPanics` | src/lib.rs:283 | with four distinct ARef codes below 4, the `unwrap` in `cr_unpack` never panics, on any word |
| `Codec.PackList` | src/lib.rs:115-118 | the buffer `set_chanlist` collects has one word per triple, in order, each the packing of its triple and within the field bits |
| `Codec.UnpackList` | src/lib.rs:129-137 | decoding a buffer panics exactly when some word's decoding panics; otherwise it has one triple per word, each that word's unpacking, in order |
| `Codec.ListRoundTrip` | src/lib.rs:114-140 | a list of in-range triples decodes back to itself after packing |
| `Codec.PackedListRoundTrip` | src/lib.rs:124-140 | a buffer of packed words decodes without panicking, and its decoding packs back to the same buffer |
| `Command.Cmd.FromTemplate` | src/lib.rs:199-203 | a fresh descriptor holds the driver-filled struct and an empty buffer, satisfies the invariant, and `chanlist()` returns `None` |
| `Command.Cmd.Subdev` | src/lib.rs:70 | `subdev()` returns the stored `subdev` field unchanged; a plain getter never decodes and never panics |
| `Command.Cmd.StartArg` | src/lib.rs:72 | `start_arg()` returns the stored `start_arg` field unchanged, whatever its value |
| `Command.Cmd.ScanBeginArg` | src/lib.rs:74 | `scan_begin_arg()` returns the stored `scan_begin_arg` field unchanged, whatever its value |
| `Command.Cmd.ConvertArg` | src/lib.rs:76 | `convert_arg()` returns the stored `convert_arg` field unchanged, whatever its value |
| `Command.Cmd.ScanEndArg` | src/lib.rs:78 | `scan_end_arg()` returns the stored `scan_end_arg` field unchanged, whatever its value |
| `Command.Cmd.StopArg` | src/lib.rs:80 | `stop_arg()` returns the stored `stop_arg` field unchanged, whatever its value |
| `Command.Cmd.StartSrc` | src/lib.rs:71 | `start_src()` panics (`expect`) exactly when the stored code is not a StartTrigger code; otherwise it returns the variant with that code |
| `Command.Cmd.ScanBeginSrc` | src/lib.rs:73 | `scan_begin_src()` panics exactly when the stored code is not a ScanBeginTrigger code; otherwise it returns the variant with that code |
| `Command.Cmd.ConvertSrc` | src/lib.rs:75 | `convert_src()` panics exactly when the stored code is not a ConvertTrigger code; otherwise it returns the variant with that code |
| `Command.Cmd.ScanEndSrc` | src/lib.rs:77 | `scan_end_src()` panics exactly when the stored code is not a ScanEndTrigger code; otherwise it returns the variant with that code |
| `Command.Cmd.StopSrc` | src/lib.rs:79 | `stop_src()` panics exactly when the stored code is not a StopTrigger code; otherwise it returns the variant with that code |
| `Command.Cmd.SetSubdev` | src/lib.rs:81-83 | only `subdev` changes; the getter returns the new value; the invariant is kept |
| `Command.Cmd.SetStart` | src/lib.rs:84-89 | only `start_src` (set to the variant's code) and `start_arg` change; `start_src()` then returns the variant and `start_arg()` the argument |
| `Command.Cmd.SetScanBegin` | src/lib.rs:90-95 | only `scan_begin_src` and `scan_begin_arg` change; the getters then return the variant and the argument |
| `Command.Cmd.SetConvert` | src/lib.rs:96-101 | only `convert_src` and `convert_arg` change; the getters then return the variant and the argument |
| `Command.Cmd.SetScanEnd` | src/lib.rs:102-107 | only `scan_end_src` and `scan_end_arg` change; the getters then return the variant and the argument |
| `Command.Cmd.SetStop` | src/lib.rs:108-113 | only `stop_src` and `stop_arg` change; the getters then return the variant and the argument |
| `Command.Cmd.SetChanlist` | src/lib.rs:114-123 | the buffer becomes the packing of the list; the pointer is set and the length is the list's length; nothing else changes; the invariant is kept; for in-range triples with ARef codes below 4, `chanlist()` then returns `Some` of the same list |
| `Command.Cmd.Chanlist` | src/lib.rs:124-140 | returns `None` exactly when the pointer is null; otherwise it panics exactly when some buffered word does not decode, and else returns the decoding of every buffered word, in order; as a function of the state, it changes nothing |
| `Command.DecodeChanlist` | src/lib.rs:124-140 | what `chanlist()` reads through the struct: `None` exactly when the pointer is null; otherwise it panics exactly when some word of the viewed buffer does not decode, and else returns every word's decoding, in order |
| `Command.InstalledDecodes` | src/lib.rs:114-140 | the struct as `set_chanlist(refs)` leaves it (pointer set, length `|refs|`, buffer the packing of `refs`) reads back as `Some(refs)` for in-range triples with ARef codes below 4 |
| `Command.ChanlistConsistent` | src/lib.rs:114-140 | with ARef codes below 4, an installed list decodes without panicking and re-packs to exactly the owned buffer, so the buffer and its decoding never drift apart |
| `Flags.SDF.New` | src/flags.rs:26-28 | `SDF::new(v)` stores `v` unchanged |
| `Flags.SDF.IsSet` | src/flags.rs:17-19 | `is_set` is true exactly when the two words share a bit: some single-bit mask is set in both |
| `Flags.SharedBit` | src/flags.rs:18 | the AND of two words is non-zero exactly when some single bit is set in both (the lowest set bit of the AND is the witness) |
| `Flags.SDF.Set` | src/flags.rs:20-22 | `set` makes the word the OR of the old word and the other flag's word |
| `Flags.IsSetSymmetric` | src/flags.rs:17-19 | `a.is_set(b)` equals `b.is_set(a)`, and it is false when either word is 0 |
| `Flags.SetLaws` | src/flags.rs:20-22 | setting is idempotent and commutative; it keeps every bit already set; after setting a non-zero flag, that flag tests as set |
| `Flags.SetThenTest` | src/flags.rs:17-28 | from `SDF::new(0)`, setting `a` and then testing `b` is true exactly when `a & b != 0`: true for `b == a != 0`, false for a flag disjoint from `a` |

## Left out

- Every `Comedi` method (`open`, `data_read`, `get_range`, `get_maxdata`, `get_cmd_generic_timed`, `command_test`, `command`, `get_subdevice_flags`, `get_read_subdevice`, `set_read_subdevice`). Each is one foreign `comedilib_sys` call followed by a "negative, null or zero means error" check. The driver's behaviour is not visible, including how `command_test` rewrites the descriptor. `Cmd.FromTemplate` stands for the descriptor that `get_cmd_generic_timed` returns.
- There is no validation retry loop in the crate. `command_test` returns `CommandTestResult`, which `src/types.rs` does not define, so neither is modelled.
- `impl Read for Comedi`: a raw `read` on the device's file descriptor, which is operating-system I/O.
- `to_phys` and `set_global_oor_behavior`: floating-point conversion done by the C library, and process-global state inside it. The `OORBehavior` code map they rely on is modelled. Note that `to_phys` tests `phys == NAN`, which is never true, so its error branch cannot run.
- `Range<'a>` and its getters. This is a raw pointer tied to the device's lifetime by the borrow checker, with `f64` fields. The `Unit` code map used by its `unit()` getter is modelled.
- `Drop for Comedi` and the `perror!` macro: resource teardown and error-message formatting from `comedi_strerror`.
- The concrete values of the `SDF_*` flag constants, and the constants `SDF::BUSY` … `SDF::PACKED` built from them. Each is `SDF::new` of an unknown word. Every flag law here holds for all words, so it holds for each constant.
- The `Bitfield` trait is not modelled on its own. `SDF` implements it, and `SDF.IsSet` and `SDF.Set` stand for that implementation.
- `src/flags.rs` is not declared as a module of the crate, and `get_subdevice_flags` returns a raw `c_int`. `SDF` is therefore modelled on its own, not connected to a device.
- `comedi_cmd` fields that the crate never reads or writes (`flags`, `data`, `data_len`) are not part of `CmdStruct`.
- `chanlist()` converts `chanlist_len` to `usize` with `try_into().unwrap()`. This conversion cannot fail on the platforms the crate targets, so the model does not include it.
- `Cmd.SetChanlist`: a list of 2^32 or more entries makes the crate panic after it has already replaced the buffer. The model excludes such lists with a `requires` and does not model the state left behind by that panic.
- `Flags.SDF.Set` requires `other != this`. Rust moves `other` into `set` by value, so it can never be the same flag set that is being updated.
