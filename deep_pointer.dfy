/**
 * DeepPointer.cs: resolving a module-relative base address plus a chain of
 * offsets through a process's memory, then reading a typed value, a
 * three-float vector or a fixed-capacity string at the resolved address.
 *
 * The operating system is replaced by a snapshot of the target process: its
 * memory as a partial map from address to byte, its module table and the base
 * address of its main module. A read of n bytes succeeds exactly when every
 * one of the n bytes is mapped (kernel32's ReadProcessMemory is not modelled).
 */
module DeepPointers {
  import opened Wrappers
  import opened Text

  type Byte = b: int | 0 <= b < 0x100

  /** The target's address space: an address is readable iff it is a key. */
  type Memory = map<int, Byte>

  /** One entry of Process.Modules, reduced to its file name and load address. */
  datatype ProcessModule = ProcessModule(fileName: string, baseAddress: int)

  /** What a read of the target process can observe at one instant. */
  datatype ProcessView = ProcessView(memory: Memory, modules: seq<ProcessModule>, mainModuleBase: int)

  /** The .NET Process object: the target's memory changes between reads. */
  class GameProcess {
    var view: ProcessView

    constructor (view: ProcessView)
      ensures this.view == view
    {
      this.view := view;
    }
  }

  // ---------------------------------------------------------------------------
  // Raw reads and little-endian decoding
  // ---------------------------------------------------------------------------

  /** Every byte of [addr, addr + n) is mapped. */
  predicate Readable(mem: Memory, addr: int, n: nat) {
    forall a :: addr <= a < addr + n ==> a in mem
  }

  /** ReadProcessMemory into a buffer of n bytes, failing unless all n were read. */
  function ReadBytes(mem: Memory, addr: int, n: nat): (r: Option<seq<Byte>>)
    ensures r.Some? <==> Readable(mem, addr, n)
    ensures r.Some? ==> |r.value| == n
  {
    if Readable(mem, addr, n) then Some(Bytes(mem, addr, n)) else None
  }

  /** The n mapped bytes from addr on, in address order. */
  function Bytes(mem: Memory, addr: int, n: nat): (b: seq<Byte>)
    requires Readable(mem, addr, n)
    ensures |b| == n
    ensures n > 0 ==> b[0] == mem[addr]
    decreases n
  {
    if n == 0 then [] else [mem[addr]] + Bytes(mem, addr + 1, n - 1)
  }

  /** Byte i of the buffer is the memory byte at addr + i. */
  lemma {:induction false} BytesAt(mem: Memory, addr: int, n: nat, i: nat)
    requires Readable(mem, addr, n) && i < n
    ensures Bytes(mem, addr, n)[i] == mem[addr + i]
    decreases n
  {
    if i > 0 {
      BytesAt(mem, addr + 1, n - 1, i - 1);
    }
  }

  /** A read of n bytes yields exactly the n mapped bytes from addr on, or fails when one is unmapped. */
  lemma ReadBytesContent(mem: Memory, addr: int, n: nat)
    ensures ReadBytes(mem, addr, n).Some? <==> Readable(mem, addr, n)
    ensures ReadBytes(mem, addr, n).Some? ==>
              |ReadBytes(mem, addr, n).value| == n &&
              forall i :: 0 <= i < n ==> addr + i in mem && ReadBytes(mem, addr, n).value[i] == mem[addr + i]
  {
    if Readable(mem, addr, n) {
      forall i | 0 <= i < n
        ensures addr + i in mem && ReadBytes(mem, addr, n).value[i] == mem[addr + i]
      {
        BytesAt(mem, addr, n, i);
      }
    }
  }

  /** BitConverter.ToUInt32 on the first four bytes. */
  function UInt32LE(b: seq<Byte>): (r: nat)
    requires |b| >= 4
    ensures r < 0x1_0000_0000
  {
    b[0] as int + 0x100 * (b[1] as int) + 0x1_0000 * (b[2] as int) + 0x100_0000 * (b[3] as int)
  }

  /** BitConverter.ToInt32 on the first four bytes (two's complement). */
  function Int32LE(b: seq<Byte>): (r: int)
    requires |b| >= 4
    ensures -0x8000_0000 <= r < 0x8000_0000
    ensures r >= 0 ==> r == UInt32LE(b)
    ensures r < 0 ==> r + 0x1_0000_0000 == UInt32LE(b)
  {
    var u := UInt32LE(b);
    if u >= 0x8000_0000 then u - 0x1_0000_0000 else u
  }

  /** BitConverter.GetBytes for a 32-bit value: the inverse of the decoders above. */
  function EncodeUInt32LE(u: nat): (b: seq<Byte>)
    requires u < 0x1_0000_0000
    ensures |b| == 4
  {
    [u % 0x100, (u / 0x100) % 0x100, (u / 0x1_0000) % 0x100, u / 0x100_0000]
  }

  function EncodeInt32LE(x: int): (b: seq<Byte>)
    requires -0x8000_0000 <= x < 0x8000_0000
    ensures |b| == 4
  {
    EncodeUInt32LE(if x < 0 then x + 0x1_0000_0000 else x)
  }

  lemma UInt32RoundTrip(u: nat)
    requires u < 0x1_0000_0000
    ensures UInt32LE(EncodeUInt32LE(u)) == u
  {
    var b := EncodeUInt32LE(u);
    var q1, q2, q3 := u / 0x100, u / 0x1_0000, u / 0x100_0000;
    assert u == b[0] + 0x100 * q1;
    assert q1 == b[1] + 0x100 * q2;
    assert q2 == b[2] + 0x100 * q3;
    assert q3 == b[3];
  }

  /** Dividing by 2^8, 2^16 or 2^24 recovers the two parts of lo + d * hi when 0 <= lo < d. */
  lemma DivideExactly(x: int, d: int, lo: int, hi: int)
    requires d == 0x100 || d == 0x1_0000 || d == 0x100_0000
    requires 0 <= lo < d && x == lo + d * hi
    ensures x / d == hi && x % d == lo
  {
    if d == 0x100 {
      assert x == lo + 0x100 * hi;
    } else if d == 0x1_0000 {
      assert x == lo + 0x1_0000 * hi;
    } else {
      assert x == lo + 0x100_0000 * hi;
    }
  }

  /** The four bytes of a 32-bit reading are recovered by encoding it again. */
  lemma UInt32Bytes(b: seq<Byte>)
    requires |b| == 4
    ensures EncodeUInt32LE(UInt32LE(b)) == b
  {
    var u := UInt32LE(b);
    var b0, b1, b2, b3 := b[0] as int, b[1] as int, b[2] as int, b[3] as int;
    var q2 := b2 + 0x100 * b3;
    var q1 := b1 + 0x100 * q2;
    assert u == b0 + 0x100 * q1;
    DivideExactly(u, 0x100, b0, q1);
    DivideExactly(q1, 0x100, b1, q2);
    DivideExactly(q2, 0x100, b2, b3);
    assert u == (b0 + 0x100 * b1) + 0x1_0000 * q2;
    DivideExactly(u, 0x1_0000, b0 + 0x100 * b1, q2);
    assert u == (b0 + 0x100 * b1 + 0x1_0000 * b2) + 0x100_0000 * b3;
    DivideExactly(u, 0x100_0000, b0 + 0x100 * b1 + 0x1_0000 * b2, b3);
    assert EncodeUInt32LE(u) == [b[0], b[1], b[2], b[3]];
  }

  lemma Int32RoundTrip(x: int)
    requires -0x8000_0000 <= x < 0x8000_0000
    ensures Int32LE(EncodeInt32LE(x)) == x
  {
    UInt32RoundTrip(if x < 0 then x + 0x1_0000_0000 else x);
  }

  /** ReadProcessPtr32: a 4-byte little-endian signed pointer at `addr`. */
  function ReadPtr32(mem: Memory, addr: int): (r: Option<int>)
    ensures r.Some? <==> Readable(mem, addr, 4)
    ensures r.Some? ==> -0x8000_0000 <= r.value < 0x8000_0000
  {
    if Readable(mem, addr, 4) then Some(Int32LE([mem[addr], mem[addr + 1], mem[addr + 2], mem[addr + 3]])) else None
  }

  // ---------------------------------------------------------------------------
  // Typed values
  // ---------------------------------------------------------------------------

  /** The value types Deref<T> supports; any other T throws in the source. */
  datatype ValueKind = IntKind | UIntKind | FloatKind | ByteKind | BoolKind

  /**
   * A decoded value. Single-precision floats are kept as their raw 32-bit
   * pattern, so decoding is exact; the pattern 0 is the float 0.0.
   */
  datatype Value =
    | IntValue(i: int)
    | UIntValue(u: nat)
    | FloatValue(bits: nat)
    | ByteValue(b: Byte)
    | BoolValue(flag: bool)

  /** Marshal.SizeOf: bool marshals as a 4-byte Win32 BOOL. */
  function SizeOf(kind: ValueKind): (n: nat)
    ensures n == 1 || n == 4
    ensures n == 1 <==> kind == ByteKind
  {
    match kind
    case ByteKind => 1
    case _ => 4
  }

  /** default(T) */
  function Default(kind: ValueKind): Value {
    match kind
    case IntKind => IntValue(0)
    case UIntKind => UIntValue(0)
    case FloatKind => FloatValue(0)
    case ByteKind => ByteValue(0)
    case BoolKind => BoolValue(false)
  }

  /** The BitConverter decode for each supported kind. */
  function Decode(kind: ValueKind, b: seq<Byte>): (v: Value)
    requires |b| == SizeOf(kind)
    ensures v.IntValue? <==> kind == IntKind
    ensures v.UIntValue? <==> kind == UIntKind
    ensures v.FloatValue? <==> kind == FloatKind
    ensures v.ByteValue? <==> kind == ByteKind
    ensures v.BoolValue? <==> kind == BoolKind
    ensures kind == IntKind ==> -0x8000_0000 <= v.i < 0x8000_0000 && EncodeInt32LE(v.i) == b
    ensures kind == UIntKind ==> v.u < 0x1_0000_0000 && EncodeUInt32LE(v.u) == b
    ensures kind == FloatKind ==> v.bits < 0x1_0000_0000 && EncodeUInt32LE(v.bits) == b
    ensures kind == ByteKind ==> v.b == b[0]
    ensures kind == BoolKind ==> (v.flag <==> b[0] != 0)
  {
    match kind
    case IntKind => UInt32Bytes(b); IntValue(Int32LE(b))
    case UIntKind => UInt32Bytes(b); UIntValue(UInt32LE(b))
    case FloatKind => UInt32Bytes(b); FloatValue(UInt32LE(b))
    case ByteKind => ByteValue(b[0])
    case BoolKind => BoolValue(b[0] != 0)
  }

  /** ReadProcessValue<T> at an absolute address. */
  function ReadValue(mem: Memory, addr: int, kind: ValueKind): (r: Option<Value>)
    ensures r.Some? <==> ReadBytes(mem, addr, SizeOf(kind)).Some?
    ensures kind == ByteKind ==> (r.Some? <==> Readable(mem, addr, 1))
    ensures kind != ByteKind ==> (r.Some? <==> Readable(mem, addr, 4))
    ensures r.Some? && kind == ByteKind ==> r.value == ByteValue(mem[addr])
    ensures r.Some? && kind == BoolKind ==> r.value == BoolValue(mem[addr] != 0)
  {
    match ReadBytes(mem, addr, SizeOf(kind))
    case None => None
    case Some(b) => Some(Decode(kind, b))
  }

  /** Four mapped bytes starting at addr, equal to the given ones. */
  predicate Holds(mem: Memory, addr: int, b: seq<Byte>) {
    |b| == 4 && Readable(mem, addr, 4) && forall i :: 0 <= i < 4 ==> mem[addr + i] == b[i]
  }

  lemma HoldsReads(mem: Memory, addr: int, b: seq<Byte>)
    requires Holds(mem, addr, b)
    ensures ReadBytes(mem, addr, 4) == Some(b)
  {
    ReadBytesContent(mem, addr, 4);
    var r := ReadBytes(mem, addr, 4).value;
    assert forall i :: 0 <= i < 4 ==> r[i] == b[i];
    assert r == b;
  }

  /** A signed 32-bit value written to memory reads back as itself, as an int and as a pointer. */
  lemma ReadEncodedInt(mem: Memory, addr: int, x: int)
    requires -0x8000_0000 <= x < 0x8000_0000
    requires Holds(mem, addr, EncodeInt32LE(x))
    ensures ReadValue(mem, addr, IntKind) == Some(IntValue(x))
    ensures ReadPtr32(mem, addr) == Some(x)
  {
    HoldsReads(mem, addr, EncodeInt32LE(x));
    Int32RoundTrip(x);
    ReadPtr32IsIntRead(mem, addr);
  }

  /** ReadProcessPtr32 reads the same four bytes as the typed int read: same success, same value. */
  lemma ReadPtr32IsIntRead(mem: Memory, addr: int)
    ensures ReadPtr32(mem, addr).Some? <==> ReadValue(mem, addr, IntKind).Some?
    ensures ReadPtr32(mem, addr).Some? ==> ReadValue(mem, addr, IntKind) == Some(IntValue(ReadPtr32(mem, addr).value))
  {
    if Readable(mem, addr, 4) {
      ReadBytesContent(mem, addr, 4);
      var b := ReadBytes(mem, addr, 4).value;
      assert b == [mem[addr], mem[addr + 1], mem[addr + 2], mem[addr + 3]];
    }
  }

  /** An unsigned 32-bit value written to memory reads back as itself, and as the raw bits of a float. */
  lemma ReadEncodedUInt(mem: Memory, addr: int, u: nat)
    requires u < 0x1_0000_0000
    requires Holds(mem, addr, EncodeUInt32LE(u))
    ensures ReadValue(mem, addr, UIntKind) == Some(UIntValue(u))
    ensures ReadValue(mem, addr, FloatKind) == Some(FloatValue(u))
  {
    HoldsReads(mem, addr, EncodeUInt32LE(u));
    UInt32RoundTrip(u);
  }

  // ---------------------------------------------------------------------------
  // Deep pointers and their resolution
  // ---------------------------------------------------------------------------

  /**
   * A deep pointer: an optional module name ("" stands for the main module,
   * as does a null name), a base offset, and the offset list.
   */
  datatype DeepPointer = DeepPointer(moduleName: string, base: int, offsets: seq<int>) {
    /** Both constructors put a leading 0, so the list is never empty. */
    predicate Valid() {
      |offsets| >= 1
    }

    /** The offset applied to the resolved address without a dereference. */
    function LastOffset(): int
      requires Valid()
    {
      offsets[|offsets| - 1]
    }

    /** The offsets that are dereferenced: all but the last. */
    function Chain(): (c: seq<int>)
      requires Valid()
      ensures |c| == |offsets| - 1
    {
      offsets[..|offsets| - 1]
    }
  }

  /** DeepPointer(string module, int base_, params int[] offsets) */
  function NewModulePointer(moduleName: string, base: int, offsets: seq<int>): (p: DeepPointer)
    ensures p.Valid() && p.moduleName == moduleName && p.base == base
    ensures |p.offsets| == |offsets| + 1 && p.offsets[0] == 0 && p.offsets[1..] == offsets
  {
    DeepPointer(moduleName, base, [0] + offsets)
  }

  /** DeepPointer(int base_, params int[] offsets): relative to the main module. */
  function NewPointer(base: int, offsets: seq<int>): (p: DeepPointer)
    ensures p.Valid() && p.moduleName == "" && p.base == base
    ensures |p.offsets| == |offsets| + 1 && p.offsets[0] == 0 && p.offsets[1..] == offsets
  {
    DeepPointer("", base, [0] + offsets)
  }

  /** Path.GetFileName(m.FileName).ToLower() == _module.ToLower() */
  predicate ModuleMatches(m: ProcessModule, name: string) {
    EqualsIgnoreCase(m.fileName, name)
  }

  /** Process.Modules.FirstOrDefault(matching name). */
  function FindModule(mods: seq<ProcessModule>, name: string): (r: Option<ProcessModule>)
    ensures r.None? <==> forall k :: 0 <= k < |mods| ==> !ModuleMatches(mods[k], name)
    ensures r.Some? ==> exists k :: 0 <= k < |mods| && mods[k] == r.value && ModuleMatches(mods[k], name)
                                     && forall j :: 0 <= j < k ==> !ModuleMatches(mods[j], name)
  {
    if mods == [] then None
    else if ModuleMatches(mods[0], name) then Some(mods[0])
    else
      var r := FindModule(mods[1..], name);
      assert forall k :: 1 <= k < |mods| ==> mods[k] == mods[1..][k - 1];
      if r.Some? then
        var k :| 0 <= k < |mods[1..]| && mods[1..][k] == r.value && ModuleMatches(mods[1..][k], name)
                 && forall j :: 0 <= j < k ==> !ModuleMatches(mods[1..][j], name);
        assert mods[k + 1] == r.value;
        r
      else
        r
  }

  /** The address resolution starts from, or None when the named module is not loaded. */
  function StartAddress(proc: ProcessView, p: DeepPointer): Option<int> {
    if p.moduleName != "" then
      match FindModule(proc.modules, p.moduleName)
      case None => None
      case Some(m) => Some(m.baseAddress + p.base)
    else
      Some(proc.mainModuleBase + p.base)
  }

  /**
   * Follows `offs` from `ptr`: each step reads a 32-bit pointer at the current
   * address plus the offset; a failed read or a null pointer ends the chase.
   */
  function Chase(mem: Memory, ptr: int, offs: seq<int>): (r: Option<int>)
    ensures offs != [] && r.Some? ==> r.value != 0
    decreases |offs|
  {
    if offs == [] then Some(ptr)
    else
      match ReadPtr32(mem, ptr + offs[0])
      case None => None
      case Some(next) => if next == 0 then None else Chase(mem, next, offs[1..])
  }

  /** The addresses at which Chase reads a pointer, in order. */
  function ChaseReads(mem: Memory, ptr: int, offs: seq<int>): seq<int>
    decreases |offs|
  {
    if offs == [] then []
    else
      [ptr + offs[0]] +
      match ReadPtr32(mem, ptr + offs[0])
      case None => []
      case Some(next) => if next == 0 then [] else ChaseReads(mem, next, offs[1..])
  }

  /** DerefOffsets as a function: the resolved address, if any. */
  function Resolve(proc: ProcessView, p: DeepPointer): (r: Option<int>)
    requires p.Valid()
    ensures StartAddress(proc, p).None? ==> r.None?
    ensures p.Chain() == [] ==> r == StartAddress(proc, p)
    ensures p.Chain() != [] && r.Some? ==> r.value != 0
  {
    match StartAddress(proc, p)
    case None => None
    case Some(start) => Chase(proc.memory, start, p.Chain())
  }

  /** The pointer reads DerefOffsets performs, in order. */
  function ResolveReads(proc: ProcessView, p: DeepPointer): seq<int>
    requires p.Valid()
  {
    match StartAddress(proc, p)
    case None => []
    case Some(start) => ChaseReads(proc.memory, start, p.Chain())
  }

  /** Chasing a concatenation is chasing the first part, then the second from where it ended. */
  lemma {:induction false} ChaseAppendResult(mem: Memory, ptr: int, a: seq<int>, b: seq<int>)
    ensures Chase(mem, ptr, a).None? ==> Chase(mem, ptr, a + b).None?
    ensures Chase(mem, ptr, a).Some? ==> Chase(mem, ptr, a + b) == Chase(mem, Chase(mem, ptr, a).value, b)
    decreases |a|
  {
    if a == [] {
      assert a + b == b;
    } else {
      assert (a + b)[0] == a[0];
      assert (a + b)[1..] == a[1..] + b;
      var r := ReadPtr32(mem, ptr + a[0]);
      if r.Some? && r.value != 0 {
        ChaseAppendResult(mem, r.value, a[1..], b);
      }
    }
  }

  lemma AppendAssoc(h: seq<int>, x: seq<int>, y: seq<int>)
    ensures h + (x + y) == (h + x) + y
  {
  }

  /** The reads of a concatenated chase are those of the first part, then those of the second. */
  lemma {:induction false} ChaseAppendReads(mem: Memory, ptr: int, a: seq<int>, b: seq<int>)
    ensures Chase(mem, ptr, a).None? ==> ChaseReads(mem, ptr, a + b) == ChaseReads(mem, ptr, a)
    ensures Chase(mem, ptr, a).Some? ==>
              ChaseReads(mem, ptr, a + b) == ChaseReads(mem, ptr, a) + ChaseReads(mem, Chase(mem, ptr, a).value, b)
    decreases |a|
  {
    if a == [] {
      assert a + b == b;
    } else {
      assert (a + b)[0] == a[0];
      assert (a + b)[1..] == a[1..] + b;
      var h := [ptr + a[0]];
      var r := ReadPtr32(mem, ptr + a[0]);
      if r.Some? && r.value != 0 {
        ChaseAppendReads(mem, r.value, a[1..], b);
        assert ChaseReads(mem, ptr, a + b) == h + ChaseReads(mem, r.value, a[1..] + b);
        assert ChaseReads(mem, ptr, a) == h + ChaseReads(mem, r.value, a[1..]);
        assert Chase(mem, ptr, a) == Chase(mem, r.value, a[1..]);
        if Chase(mem, ptr, a).Some? {
          AppendAssoc(h, ChaseReads(mem, r.value, a[1..]), ChaseReads(mem, Chase(mem, ptr, a).value, b));
        }
      } else {
        assert ChaseReads(mem, ptr, a + b) == h;
        assert ChaseReads(mem, ptr, a) == h;
      }
    }
  }

  lemma ChaseAppend(mem: Memory, ptr: int, a: seq<int>, b: seq<int>)
    ensures Chase(mem, ptr, a).None? ==>
              Chase(mem, ptr, a + b).None? && ChaseReads(mem, ptr, a + b) == ChaseReads(mem, ptr, a)
    ensures Chase(mem, ptr, a).Some? ==>
              var q := Chase(mem, ptr, a).value;
              Chase(mem, ptr, a + b) == Chase(mem, q, b) &&
              ChaseReads(mem, ptr, a + b) == ChaseReads(mem, ptr, a) + ChaseReads(mem, q, b)
  {
    ChaseAppendResult(mem, ptr, a, b);
    ChaseAppendReads(mem, ptr, a, b);
  }

  /**
   * The chase performs at most one read per offset, all of them on success,
   * and on failure stops right after a read that failed or produced null.
   */
  lemma {:induction false} ChaseReadCount(mem: Memory, ptr: int, offs: seq<int>)
    ensures |ChaseReads(mem, ptr, offs)| <= |offs|
    ensures Chase(mem, ptr, offs).Some? ==> |ChaseReads(mem, ptr, offs)| == |offs|
    ensures Chase(mem, ptr, offs).None? ==>
              var rs := ChaseReads(mem, ptr, offs);
              |rs| > 0 && var r := ReadPtr32(mem, rs[|rs| - 1]); r.None? || r.value == 0
    decreases |offs|
  {
    if offs != [] {
      var r := ReadPtr32(mem, ptr + offs[0]);
      if r.Some? && r.value != 0 {
        ChaseReadCount(mem, r.value, offs[1..]);
        var rest := ChaseReads(mem, r.value, offs[1..]);
        assert ChaseReads(mem, ptr, offs) == [ptr + offs[0]] + rest;
      } else {
        assert ChaseReads(mem, ptr, offs) == [ptr + offs[0]];
      }
    }
  }

  /**
   * The i-th pointer read happens at the address reached after the first i
   * offsets, plus offs[i].
   */
  lemma ChaseReadAt(mem: Memory, ptr: int, offs: seq<int>, i: nat)
    requires i < |ChaseReads(mem, ptr, offs)|
    ensures i < |offs| && Chase(mem, ptr, offs[..i]).Some?
    ensures ChaseReads(mem, ptr, offs)[i] == Chase(mem, ptr, offs[..i]).value + offs[i]
  {
    ChaseReadCount(mem, ptr, offs);
    assert offs == offs[..i] + offs[i..];
    ChaseAppend(mem, ptr, offs[..i], offs[i..]);
    ChaseReadCount(mem, ptr, offs[..i]);
    assert Chase(mem, ptr, offs[..i]).Some?;
    var q := Chase(mem, ptr, offs[..i]).value;
    assert offs[i..][0] == offs[i];
    assert ChaseReads(mem, q, offs[i..])[0] == q + offs[i];
  }

  /**
   * Failure at step k: once the prefix resolved to q and the read at
   * q + offs[k] fails or is null, the whole chase fails and no offset after
   * k is ever read.
   */
  lemma ChaseStopsAt(mem: Memory, ptr: int, offs: seq<int>, k: nat)
    requires k < |offs| && Chase(mem, ptr, offs[..k]).Some?
    requires var r := ReadPtr32(mem, Chase(mem, ptr, offs[..k]).value + offs[k]); r.None? || r.value == 0
    ensures Chase(mem, ptr, offs).None?
    ensures ChaseReads(mem, ptr, offs) ==
              ChaseReads(mem, ptr, offs[..k]) + [Chase(mem, ptr, offs[..k]).value + offs[k]]
  {
    var q := Chase(mem, ptr, offs[..k]).value;
    var tail := offs[k..];
    assert offs == offs[..k] + tail;
    assert tail[0] == offs[k];
    ChaseFailsFirst(mem, q, tail);
    ChaseAppendResult(mem, ptr, offs[..k], tail);
    ChaseAppendReads(mem, ptr, offs[..k], tail);
  }

  /** A chase whose first read fails or is null fails after that one read. */
  lemma ChaseFailsFirst(mem: Memory, q: int, offs: seq<int>)
    requires offs != []
    requires var r := ReadPtr32(mem, q + offs[0]); r.None? || r.value == 0
    ensures Chase(mem, q, offs).None?
    ensures ChaseReads(mem, q, offs) == [q + offs[0]]
  {
  }

  /** One successful step of the chase extends the resolved prefix by one offset. */
  lemma ChaseStep(mem: Memory, ptr: int, offs: seq<int>, k: nat)
    requires k < |offs| && Chase(mem, ptr, offs[..k]).Some?
    requires var r := ReadPtr32(mem, Chase(mem, ptr, offs[..k]).value + offs[k]); r.Some? && r.value != 0
    ensures Chase(mem, ptr, offs[..k + 1]) == ReadPtr32(mem, Chase(mem, ptr, offs[..k]).value + offs[k])
    ensures ChaseReads(mem, ptr, offs[..k + 1]) ==
              ChaseReads(mem, ptr, offs[..k]) + [Chase(mem, ptr, offs[..k]).value + offs[k]]
  {
    assert offs[..k + 1] == offs[..k] + [offs[k]];
    ChaseAppend(mem, ptr, offs[..k], [offs[k]]);
    var q := Chase(mem, ptr, offs[..k]).value;
    var next := ReadPtr32(mem, q + offs[k]).value;
    assert [offs[k]][1..] == [];
    assert Chase(mem, next, []) == Some(next);
  }

  /** Resolution of a pointer built with no extra offsets reads no pointer at all. */
  lemma ResolveWithoutOffsets(proc: ProcessView, moduleName: string, base: int)
    ensures Resolve(proc, NewModulePointer(moduleName, base, [])) == StartAddress(proc, NewModulePointer(moduleName, base, []))
    ensures ResolveReads(proc, NewModulePointer(moduleName, base, [])) == []
  {
  }

  /** A named module that no loaded module matches makes resolution fail, reading nothing. */
  lemma MissingModuleFails(proc: ProcessView, p: DeepPointer)
    requires p.Valid() && p.moduleName != ""
    requires forall k :: 0 <= k < |proc.modules| ==> !ModuleMatches(proc.modules[k], p.moduleName)
    ensures Resolve(proc, p).None? && ResolveReads(proc, p) == []
  {
  }

  /**
   * DerefOffsets: the loop over all offsets but the last, with early exit.
   * On failure the out-pointer is IntPtr.Zero, as every failing path leaves it.
   */
  method DerefOffsets(proc: ProcessView, p: DeepPointer) returns (ok: bool, ptr: int, ghost trace: seq<int>)
    requires p.Valid()
    ensures ok <==> Resolve(proc, p).Some?
    ensures ok ==> ptr == Resolve(proc, p).value
    ensures !ok ==> ptr == 0
    ensures trace == ResolveReads(proc, p)
  {
    var start := StartAddress(proc, p);
    if start.None? {
      return false, 0, [];
    }
    ok, ptr, trace := ChaseLoop(proc.memory, start.value, p.Chain());
  }

  /** The loop of DerefOffsets: one pointer read per offset, stopping at a failed read or a null pointer. */
  method ChaseLoop(mem: Memory, start: int, offs: seq<int>) returns (ok: bool, ptr: int, ghost trace: seq<int>)
    ensures ok <==> Chase(mem, start, offs).Some?
    ensures ok ==> ptr == Chase(mem, start, offs).value
    ensures !ok ==> ptr == 0
    ensures trace == ChaseReads(mem, start, offs)
  {
    ptr, trace := start, [];
    var i := 0;
    while i < |offs|
      invariant 0 <= i <= |offs|
      invariant Chase(mem, start, offs[..i]) == Some(ptr)
      invariant trace == ChaseReads(mem, start, offs[..i])
    {
      var next := ReadPtr32(mem, ptr + offs[i]);
      trace := trace + [ptr + offs[i]];
      if next.None? || next.value == 0 {
        ChaseStopsAt(mem, start, offs, i);
        return false, 0, trace;
      }
      ChaseStep(mem, start, offs, i);
      ptr := next.value;
      i := i + 1;
    }
    assert offs[..i] == offs;
    ok := true;
  }

  /**
   * Deref<T>: resolve, then read a T at the resolved address plus the last
   * offset. On any failure the result is (false, default(T)).
   */
  function Deref(proc: ProcessView, p: DeepPointer, kind: ValueKind): (r: (bool, Value))
    requires p.Valid()
    ensures r.0 <==> Resolve(proc, p).Some? && ReadValue(proc.memory, Resolve(proc, p).value + p.LastOffset(), kind).Some?
    ensures r.0 ==> Some(r.1) == ReadValue(proc.memory, Resolve(proc, p).value + p.LastOffset(), kind)
    ensures !r.0 ==> r.1 == Default(kind)
  {
    match Resolve(proc, p)
    case None => (false, Default(kind))
    case Some(addr) =>
      match ReadValue(proc.memory, addr + p.LastOffset(), kind)
      case None => (false, Default(kind))
      case Some(v) => (true, v)
  }

  /** Vector3f with its three components as raw float bit patterns; new Vector3f() is all zero. */
  datatype Vector3f = Vector3f(x: nat, y: nat, z: nat)

  /** Reads the float pattern at `addr`, if readable. */
  function ReadFloatBits(mem: Memory, addr: int): (r: Option<nat>)
    ensures r.Some? <==> ReadBytes(mem, addr, 4).Some?
    ensures r.Some? ==> ReadValue(mem, addr, FloatKind) == Some(FloatValue(r.value))
  {
    match ReadValue(mem, addr, FloatKind)
    case Some(FloatValue(bits)) => Some(bits)
    case _ => None
  }

  /** Three float reads at +0, +4, +8, all or nothing. */
  function ReadVector(mem: Memory, addr: int): (r: Option<Vector3f>)
    ensures r.Some? <==> ReadFloatBits(mem, addr).Some? && ReadFloatBits(mem, addr + 4).Some? && ReadFloatBits(mem, addr + 8).Some?
    ensures r.Some? ==> r.value == Vector3f(ReadFloatBits(mem, addr).value, ReadFloatBits(mem, addr + 4).value,
                                            ReadFloatBits(mem, addr + 8).value)
  {
    match (ReadFloatBits(mem, addr), ReadFloatBits(mem, addr + 4), ReadFloatBits(mem, addr + 8))
    case (Some(x), Some(y), Some(z)) => Some(Vector3f(x, y, z))
    case _ => None
  }

  /** The vector at a resolved address (if any) plus the last offset, or all zero. */
  function VectorAt(mem: Memory, resolved: Option<int>, last: int): (r: (bool, Vector3f))
    ensures r.0 <==> resolved.Some? && ReadVector(mem, resolved.value + last).Some?
    ensures r.0 ==> Some(r.1) == ReadVector(mem, resolved.value + last)
    ensures !r.0 ==> r.1 == Vector3f(0, 0, 0)
  {
    if resolved.None? then (false, Vector3f(0, 0, 0))
    else
      match ReadVector(mem, resolved.value + last)
      case None => (false, Vector3f(0, 0, 0))
      case Some(v) => (true, v)
  }

  /** Deref(out Vector3f): the vector at the resolved address plus the last offset, or all zero. */
  function DerefVector(proc: ProcessView, p: DeepPointer): (r: (bool, Vector3f))
    requires p.Valid()
    ensures r.0 <==> Resolve(proc, p).Some? && ReadVector(proc.memory, Resolve(proc, p).value + p.LastOffset()).Some?
    ensures r.0 ==> Some(r.1) == ReadVector(proc.memory, Resolve(proc, p).value + p.LastOffset())
    ensures !r.0 ==> r.1 == Vector3f(0, 0, 0)
  {
    VectorAt(proc.memory, Resolve(proc, p), p.LastOffset())
  }

  // ---------------------------------------------------------------------------
  // Strings
  // ---------------------------------------------------------------------------

  /** Encoding.ASCII: bytes up to 0x7F are themselves; others become '?'. */
  function AsciiChar(b: Byte): (c: char)
    ensures b <= 0x7F ==> c as int == b
    ensures c == '\0' <==> b == 0
  {
    if b <= 0x7F then b as char else '?'
  }

  function DecodeAscii(bytes: seq<Byte>): (s: string)
    ensures |s| == |bytes|
    ensures forall i :: 0 <= i < |bytes| ==> s[i] == AsciiChar(bytes[i])
  {
    seq(|bytes|, i requires 0 <= i < |bytes| => AsciiChar(bytes[i]))
  }

  /** The 16-bit code units of a little-endian buffer; a trailing odd byte is not a unit. */
  function Utf16Units(bytes: seq<Byte>): (us: seq<int>)
    ensures |us| == |bytes| / 2
    ensures forall i :: 0 <= i < |us| ==> us[i] == bytes[2 * i] as int + 0x100 * (bytes[2 * i + 1] as int)
    ensures forall i :: 0 <= i < |us| ==> 0 <= us[i] < 0x1_0000
  {
    seq(|bytes| / 2, i requires 0 <= i < |bytes| / 2 => bytes[2 * i] as int + 0x100 * (bytes[2 * i + 1] as int))
  }

  predicate IsHighSurrogate(u: int) { 0xD800 <= u <= 0xDBFF }
  predicate IsLowSurrogate(u: int) { 0xDC00 <= u <= 0xDFFF }

  /** RFC 2781 decoding of code units; an unpaired surrogate becomes U+FFFD. */
  function DecodeUnits(us: seq<int>): (s: string)
    requires forall i :: 0 <= i < |us| ==> 0 <= us[i] < 0x1_0000
    ensures |s| <= |us|
    decreases |us|
  {
    if us == [] then []
    else if |us| >= 2 && IsHighSurrogate(us[0]) && IsLowSurrogate(us[1]) then
      [(0x1_0000 + (us[0] - 0xD800) * 0x400 + (us[1] - 0xDC00)) as char] + DecodeUnits(us[2..])
    else if IsHighSurrogate(us[0]) || IsLowSurrogate(us[0]) then
      ['�'] + DecodeUnits(us[1..])
    else
      [us[0] as char] + DecodeUnits(us[1..])
  }

  /** Encoding.Unicode: UTF-16LE; a trailing odd byte becomes U+FFFD. */
  function DecodeUtf16Le(bytes: seq<Byte>): string {
    DecodeUnits(Utf16Units(bytes)) + if |bytes| % 2 == 1 then ['�'] else []
  }

  /** The one-byte heuristic: a zero second byte means UTF-16. */
  function DecodeBuffer(bytes: seq<Byte>): (s: string)
    ensures |bytes| >= 2 && bytes[1] == 0 ==> |s| <= (|bytes| + 1) / 2
    ensures !(|bytes| >= 2 && bytes[1] == 0) ==> |s| == |bytes|
  {
    if |bytes| >= 2 && bytes[1] == 0 then DecodeUtf16Le(bytes) else DecodeAscii(bytes)
  }

  /** Code units outside the surrogate range decode one-to-one. */
  lemma {:induction false} DecodeUnitsPlain(us: seq<int>)
    requires forall i :: 0 <= i < |us| ==> 0 <= us[i] < 0xD800
    ensures |DecodeUnits(us)| == |us|
    ensures forall i :: 0 <= i < |us| ==> DecodeUnits(us)[i] as int == us[i]
    decreases |us|
  {
    if us != [] {
      DecodeUnitsPlain(us[1..]);
    }
  }

  /** The prefix of `s` before its first NUL: no NUL, a prefix, and maximal. */
  function UntilNul(s: string): (r: string)
    ensures '\0' !in r
    ensures r <= s
    ensures |r| < |s| ==> s[|r|] == '\0'
  {
    if s == [] || s[0] == '\0' then []
    else [s[0]] + UntilNul(s[1..])
  }

  /** The three properties of UntilNul determine it. */
  lemma UntilNulUnique(s: string, r: string)
    requires '\0' !in r && r <= s && (|r| < |s| ==> s[|r|] == '\0')
    ensures r == UntilNul(s)
  {
  }

  /** new StringBuilder(max).Capacity: a zero request gets the default of 16. */
  function BufferCapacity(max: nat): (c: nat)
    ensures c > 0
    ensures max > 0 ==> c == max
  {
    if max == 0 then 16 else max
  }

  /** ReadProcessString as a function: a full buffer, decoded and cut at the first NUL. */
  function ReadString(mem: Memory, addr: int, capacity: nat): (r: Option<string>)
    ensures r.Some? <==> ReadBytes(mem, addr, capacity).Some?
    ensures r.Some? ==> '\0' !in r.value
  {
    match ReadBytes(mem, addr, capacity)
    case None => None
    case Some(bytes) => Some(UntilNul(DecodeBuffer(bytes)))
  }

  /**
   * A string read is the decoded buffer cut at its first NUL: it holds no NUL,
   * and it ends where the buffer ends or where a NUL follows.
   */
  lemma ReadStringCut(mem: Memory, addr: int, capacity: nat)
    requires ReadBytes(mem, addr, capacity).Some?
    ensures var d := DecodeBuffer(ReadBytes(mem, addr, capacity).value);
            var r := ReadString(mem, addr, capacity);
            r.Some? && '\0' !in r.value && r.value <= d && (|r.value| == |d| || d[|r.value|] == '\0')
  {
  }

  /**
   * ReadProcessString: fills the builder with the decoded buffer, then scans
   * for the first NUL and removes everything from there on.
   */
  method ReadProcessString(mem: Memory, addr: int, capacity: nat) returns (ok: bool, s: string)
    ensures ok <==> ReadString(mem, addr, capacity).Some?
    ensures ok ==> s == ReadString(mem, addr, capacity).value
    ensures !ok ==> s == ""
    ensures (ok, s) == Reported(ReadString(mem, addr, capacity))
  {
    var bytes := ReadBytes(mem, addr, capacity);
    if bytes.None? {
      return false, "";
    }
    var sb := DecodeBuffer(bytes.value);
    ghost var decoded := sb;
    var i := 0;
    while i < |sb|
      invariant 0 <= i <= |sb| && sb == decoded
      invariant forall j :: 0 <= j < i ==> sb[j] != '\0'
    {
      if sb[i] == '\0' {
        sb := sb[..i];
        break;
      }
      i := i + 1;
    }
    UntilNulUnique(decoded, sb);
    return true, sb;
  }

  /** The flag and the string Deref(out string) reports for a string read: false and "" when it failed. */
  function Reported(read: Option<string>): (bool, string) {
    if read.Some? then (true, read.value) else (false, "")
  }

  /** The string read at a resolved address (if any) plus the last offset. */
  function StringAt(mem: Memory, resolved: Option<int>, last: int, max: nat): (r: (bool, string))
    ensures r.0 <==> resolved.Some? && ReadString(mem, resolved.value + last, BufferCapacity(max)).Some?
    ensures r.0 ==> Some(r.1) == ReadString(mem, resolved.value + last, BufferCapacity(max))
    ensures !r.0 ==> r.1 == ""
  {
    if resolved.None? then (false, "") else Reported(ReadString(mem, resolved.value + last, BufferCapacity(max)))
  }

  /** The tail of Deref(out string, int max): give up when the chain failed, else read the string past the last offset. */
  method ReadStringAt(mem: Memory, resolved: Option<int>, last: int, max: nat) returns (ok: bool, str: string)
    ensures (ok, str) == StringAt(mem, resolved, last, max)
  {
    if resolved.None? {
      assert StringAt(mem, resolved, last, max) == (false, "");
      return false, "";
    }
    assert StringAt(mem, resolved, last, max) == Reported(ReadString(mem, resolved.value + last, BufferCapacity(max)));
    ok, str := ReadProcessString(mem, resolved.value + last, BufferCapacity(max));
  }

  /** Deref(out string, int max): "" and false on any failure. */
  function DerefString(proc: ProcessView, p: DeepPointer, max: nat): (r: (bool, string))
    requires p.Valid()
    ensures r.0 <==> Resolve(proc, p).Some? &&
                     ReadBytes(proc.memory, Resolve(proc, p).value + p.LastOffset(), BufferCapacity(max)).Some?
    ensures r.0 ==> Some(r.1) == ReadString(proc.memory, Resolve(proc, p).value + p.LastOffset(), BufferCapacity(max))
    ensures !r.0 ==> r.1 == ""
  {
    StringAt(proc.memory, Resolve(proc, p), p.LastOffset(), max)
  }

  /** The string Deref returns never holds a NUL. */
  lemma DerefStringHasNoNul(proc: ProcessView, p: DeepPointer, max: nat)
    requires p.Valid()
    ensures '\0' !in DerefString(proc, p, max).1
  {
  }

  /** The string read, composed from the two loops that implement it. */
  method DerefStringFrom(proc: ProcessView, p: DeepPointer, max: nat) returns (ok: bool, str: string)
    requires p.Valid()
    ensures (ok, str) == DerefString(proc, p, max)
  {
    var resolved, ptr, _ := DerefOffsets(proc, p);
    ok, str := ReadStringAt(proc.memory, if resolved then Some(ptr) else None, p.LastOffset(), max);
  }

  /** A 16-bit buffer "A\0B\0\0\0" reads back as "AB". */
  lemma Utf16Example()
    ensures UntilNul(DecodeBuffer([0x41, 0x00, 0x42, 0x00, 0x00, 0x00])) == "AB"
  {
    var bytes: seq<Byte> := [0x41, 0x00, 0x42, 0x00, 0x00, 0x00];
    var us := Utf16Units(bytes);
    assert us == [0x41, 0x42, 0];
    DecodeUnitsPlain(us);
    var d := DecodeBuffer(bytes);
    assert d == DecodeUnits(us);
    assert d == "AB\0";
    UntilNulUnique(d, "AB");
  }

  /** An 8-bit buffer "AB\0" reads back as "AB". */
  lemma AsciiExample()
    ensures UntilNul(DecodeBuffer([0x41, 0x42, 0x00])) == "AB"
  {
    var d := DecodeBuffer([0x41, 0x42, 0x00]);
    assert d == "AB\0";
    UntilNulUnique(d, "AB");
  }
}
