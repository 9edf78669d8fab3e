/** The ARM constant pool: constants are copied behind the code and the recorded instructions are
    patched to reach them. The code is an array of words; word i has address 4 * i. */
module Arm {
  import opened Bytes

  datatype Kind = Ldr | Ldc | AddPc

  /** A recorded instruction: its place in the code, the constant it needs, and how it refers to it. */
  datatype LDREntry = LDREntry(ptr: nat, data: nat, kind: Kind)

  // ---------------------------------------------------------------- numbers in instruction words

  function Join(c: Byte, b: Byte, a: Byte): Word
  {
    (c as Word << 16) | (b as Word << 8) | (a as Word)
  }

  function Third(w: Word): Byte { ((w >> 16) & 0xff) as Byte }
  function Second(w: Word): Byte { ((w >> 8) & 0xff) as Byte }
  function First(w: Word): Byte { (w & 0xff) as Byte }

  function ToByte(x: nat): Byte
    requires x < 0x100
  {
    x as Byte
  }

  function ToNat(b: Byte): nat
  {
    b as nat
  }

  lemma {:induction false} ToByteToNat(x: nat)
    requires x < 0x100
    ensures ToNat(ToByte(x)) == x
  {
    ByteOf(x);
  }

  /** A number below 2^24 as the low bits of a word. */
  function Imm(x: nat): Word
    requires x < 0x1000000
  {
    Join(ToByte(x / 0x10000), ToByte(x / 0x100 % 0x100), ToByte(x % 0x100))
  }

  /** The number in the low 24 bits of a word. */
  function Num(w: Word): nat
  {
    0x10000 * ToNat(Third(w)) + 0x100 * ToNat(Second(w)) + ToNat(First(w))
  }

  /** What is above the number does not matter. */
  lemma {:induction false} JoinParts(w: Word, c: Byte, b: Byte, a: Byte)
    ensures var p := (w & 0xff000000) | Join(c, b, a);
            Third(p) == c && Second(p) == b && First(p) == a && p & 0xff000000 == w & 0xff000000
  {
  }

  lemma {:induction false} NoHigh(c: Byte, b: Byte, a: Byte)
    ensures (0 & 0xff000000) | Join(c, b, a) == Join(c, b, a)
  {
  }

  function WithNum(w: Word, x: nat): Word
    requires x < 0x1000000
  {
    (w & 0xff000000) | Imm(x)
  }

  /** A number is put together from its three digits to base 256. */
  lemma {:induction false} Digits(x: nat)
    requires x < 0x1000000
    ensures x / 0x10000 < 0x100 && x == 0x10000 * (x / 0x10000) + 0x100 * (x / 0x100 % 0x100) + x % 0x100
  {
  }

  lemma {:induction false} NumOfJoin(w: Word, c: nat, b: nat, a: nat)
    requires c < 0x100 && b < 0x100 && a < 0x100
    ensures Num((w & 0xff000000) | Join(ToByte(c), ToByte(b), ToByte(a))) == 0x10000 * c + 0x100 * b + a
  {
    hide Join, Third, Second, First, ToByte, ToNat;
    JoinParts(w, ToByte(c), ToByte(b), ToByte(a));
    ToByteToNat(c);
    ToByteToNat(b);
    ToByteToNat(a);
  }

  lemma {:induction false} NumWithNum(w: Word, x: nat)
    requires x < 0x1000000
    ensures Num(WithNum(w, x)) == x
  {
    hide Join, Num, ToByte;
    Digits(x);
    NumOfJoin(w, x / 0x10000, x / 0x100 % 0x100, x % 0x100);
  }

  lemma {:induction false} NumImm(x: nat)
    requires x < 0x1000000
    ensures Num(Imm(x)) == x
  {
    hide Join, Third, Second, First, ToByte, ToNat;
    NumWithNum(0, x);
    NoHigh(ToByte(x / 0x10000), ToByte(x / 0x100 % 0x100), ToByte(x % 0x100));
  }

  // ---------------------------------------------------------------- branches

  /** The branch instruction for a distance of d words, made from one whose 24-bit field is -2. */
  function RelocPc24(insn: Word, d: nat): Word
    requires d < 0x800000
  {
    WithNum(insn, (Num(insn) + d) % 0x1000000)
  }

  /** Where a branch in word i goes: its field counts words from two words ahead, with sign. */
  function BranchTarget(insn: Word, i: nat): int
  {
    var n := Num(insn);
    4 * i + 8 + 4 * (if n >= 0x800000 then n - 0x1000000 else n)
  }

  /** Condition and operation of the instruction stay. */
  lemma {:induction false} RelocKeeps(insn: Word, d: nat)
    requires d < 0x800000
    ensures RelocPc24(insn, d) & 0xff000000 == insn & 0xff000000
    ensures Num(RelocPc24(insn, d)) == (Num(insn) + d) % 0x1000000
  {
    hide Join, Num, ToByte;
    var x := (Num(insn) + d) % 0x1000000;
    JoinParts(insn, ToByte(x / 0x10000), ToByte(x / 0x100 % 0x100), ToByte(x % 0x100));
    NumWithNum(insn, x);
  }

  /** The number by the bytes of the word. */
  lemma {:induction false} NumBytes(w: Word)
    ensures Num(w) == 0x10000 * ((w >> 16) & 0xff) as Byte as nat + 0x100 * ((w >> 8) & 0xff) as Byte as nat + (w & 0xff) as Byte as nat
  {
  }

  /** The jump over d words is an unconditional branch that counts the words after the next but one. */
  lemma {:induction false} JumpField(d: nat)
    requires 2 <= d < 0x800000
    ensures RelocPc24(0xeafffffe, d) & 0xff000000 == 0xea000000 && Num(RelocPc24(0xeafffffe, d)) == d - 2
  {
    hide RelocPc24, Num;
    RelocKeeps(0xeafffffe, d);
    FieldOfJump();
  }

  lemma {:induction false} BranchLands(i: nat, d: nat)
    requires d < 0x800000
    ensures BranchTarget(RelocPc24(0xeafffffe, d), i) == 4 * (i + d)
  {
    hide Num, WithNum;
    FieldOfJump();
    NumWithNum(0xeafffffe, (0xfffffe + d) % 0x1000000);
  }

  lemma {:induction false} FieldOfJump()
    ensures Num(0xeafffffe) == 0xfffffe
  {
    ByteOf(0xff);
    ByteOf(0xfe);
  }

  // ---------------------------------------------------------------- patches

  /** The bits a patch may change: the immediate and, for loads, the add/subtract bit. */
  function Field(kind: Kind): Word
  {
    match kind
    case Ldr => 0x00800fff
    case Ldc => 0x008000ff
    case AddPc => 0x00000fff
  }

  /** What a patch must not change. */
  function Kept(kind: Kind, insn: Word): Word
  {
    insn & !Field(kind)
  }

  predicate InRange(kind: Kind, offset: int)
  {
    0 <= offset < if kind == Ldr then 4096 else 1024
  }

  function Patch(kind: Kind, insn: Word, offset: nat): Word
    requires InRange(kind, offset)
  {
    var kept := Kept(kind, insn);
    match kind
    case Ldr => kept | Imm(offset) | 0x00800000
    case Ldc => kept | Imm(offset / 4) | 0x00800000
    case AddPc => kept | Imm(offset / 4) | 0xf00
  }

  /** The address an instruction in word i refers to. Loads add or subtract a 12-bit byte offset or
      an 8-bit word offset; an addition has an 8-bit value that is turned right by twice the four
      bits above it, and fifteen there makes it a word offset. */
  function Reaches(kind: Kind, insn: Word, i: nat): int
  {
    var up := insn & 0x00800000 != 0;
    match kind
    case Ldr => 4 * i + 8 + (if up then Num(insn & 0xfff) else 0 - Num(insn & 0xfff))
    case Ldc => 4 * i + 8 + 4 * (if up then Num(insn & 0xff) else 0 - Num(insn & 0xff))
    case AddPc => 4 * i + 8 + Num((insn & 0xff).RotateRight(if insn & 0xf00 == 0xf00 then 30 else 0))
  }

  lemma {:induction false} SmallImm(x: nat)
    requires x < 4096
    ensures Imm(x) & 0xfffff000 == 0 && (x < 256 ==> Imm(x) & 0xffffff00 == 0)
  {
    hide Join, ToByte;
    var y := x / 0x100 % 0x100;
    LowByte(y);
    LowByte(0);
    JoinLow(ToByte(y), ToByte(x % 0x100));
  }

  lemma {:induction false} LowByte(y: nat)
    requires y < 16
    ensures ToByte(y) & 0xf0 == 0 && (y == 0 ==> ToByte(y) == 0)
  {
    if y < 8 {
      assert y in {0, 1, 2, 3, 4, 5, 6, 7};
    } else {
      assert y in {8, 9, 10, 11, 12, 13, 14, 15};
    }
  }

  lemma {:induction false} JoinLow(b: Byte, a: Byte)
    requires b & 0xf0 == 0
    ensures Join(0, b, a) & 0xfffff000 == 0 && (b == 0 ==> Join(0, b, a) & 0xffffff00 == 0)
  {
  }

  lemma {:induction false} LdrBits(w: Word, m: Word)
    requires m & 0xfffff000 == 0
    ensures var p := (w & !0x00800fff) | m | 0x00800000; p & 0xfff == m && p & 0x00800000 != 0 && p & !0x00800fff == w & !0x00800fff
  {
  }

  lemma {:induction false} LdcBits(w: Word, m: Word)
    requires m & 0xffffff00 == 0
    ensures var p := (w & !0x008000ff) | m | 0x00800000; p & 0xff == m && p & 0x00800000 != 0 && p & !0x008000ff == w & !0x008000ff
  {
  }

  lemma {:induction false} AddBits(w: Word, m: Word)
    requires m & 0xffffff00 == 0
    ensures var p := (w & !0xfff) | m | 0xf00; p & 0xff == m && p & 0xf00 == 0xf00 && p & !0xfff == w & !0xfff
  {
  }

  /** Eight bits turned right by thirty are four times as much. */
  lemma {:induction false} Rotated(x: nat)
    requires x < 256
    ensures Num(Imm(x).RotateRight(30)) == 4 * x
  {
    hide Imm, Third, Second, First, ToNat;
    SmallImm(x);
    RotatedBits(Imm(x));
    NumImm(x);
    QuarterUp(First(Imm(x)));
  }

  lemma {:induction false} RotatedBits(m: Word)
    requires m & 0xffffff00 == 0
    ensures var r := m.RotateRight(30); Third(r) == 0 && Second(r) == First(m) >> 6 && First(r) == First(m) << 2
    ensures Third(m) == 0 && Second(m) == 0
  {
  }

  lemma {:induction false} QuarterUp(a: Byte)
    ensures 0x100 * ToNat(a >> 6) + ToNat(a << 2) == 4 * ToNat(a)
    ensures ToNat(0) == 0
  {
  }

  /** A patched instruction reaches the address its offset stands for, and keeps its other bits. */
  lemma {:induction false} PatchReaches(kind: Kind, insn: Word, offset: nat, i: nat)
    requires InRange(kind, offset) && offset % 4 == 0
    ensures Reaches(kind, Patch(kind, insn, offset), i) == 4 * i + 8 + offset
    ensures Kept(kind, Patch(kind, insn, offset)) == Kept(kind, insn)
  {
    hide Patch, Reaches, Kept;
    match kind
    case Ldr => LdrReaches(insn, offset, i);
    case Ldc => LdcReaches(insn, offset, i);
    case AddPc => AddReaches(insn, offset, i);
  }

  lemma {:induction false} LdrReaches(insn: Word, offset: nat, i: nat)
    requires offset < 4096
    ensures Reaches(Ldr, Patch(Ldr, insn, offset), i) == 4 * i + 8 + offset
    ensures Kept(Ldr, Patch(Ldr, insn, offset)) == Kept(Ldr, insn)
  {
    hide Num, Imm;
    SmallImm(offset);
    LdrBits(insn, Imm(offset));
    NumImm(offset);
  }

  lemma {:induction false} LdcReaches(insn: Word, offset: nat, i: nat)
    requires offset < 1024 && offset % 4 == 0
    ensures Reaches(Ldc, Patch(Ldc, insn, offset), i) == 4 * i + 8 + offset
    ensures Kept(Ldc, Patch(Ldc, insn, offset)) == Kept(Ldc, insn)
  {
    hide Num, Imm;
    SmallImm(offset / 4);
    LdcBits(insn, Imm(offset / 4));
    NumImm(offset / 4);
  }

  lemma {:induction false} AddReaches(insn: Word, offset: nat, i: nat)
    requires offset < 1024 && offset % 4 == 0
    ensures Reaches(AddPc, Patch(AddPc, insn, offset), i) == 4 * i + 8 + offset
    ensures Kept(AddPc, Patch(AddPc, insn, offset)) == Kept(AddPc, insn)
  {
    hide Num, Imm;
    SmallImm(offset / 4);
    AddBits(insn, Imm(offset / 4));
    Rotated(offset / 4);
  }

  // ---------------------------------------------------------------- the pool

  /** Distance from the program counter of entry e to its constant in a pool at word p. */
  function Offset(e: LDREntry, p: nat): int
  {
    4 * e.data + 4 * p - 4 * e.ptr - 8
  }

  /** The constants come behind the branch, if there is one: it is needed only if there are any. */
  function Pool(gen: nat, genJmp: bool, n: nat): nat
  {
    if genJmp && n > 0 then gen + 1 else gen
  }

  /** Instructions are distinct, and neither they nor anything else lies where the pool will be. */
  ghost predicate Placed(entries: seq<LDREntry>, gen: nat, p: nat, n: nat, size: nat)
  {
    && gen <= p && p + n <= size
    && (forall j :: 0 <= j < |entries| ==> entries[j].data < n && entries[j].ptr < size && !(gen <= entries[j].ptr < p + n))
    && (forall j, k :: 0 <= j < k < |entries| ==> entries[j].ptr != entries[k].ptr)
  }

  /** Entry e is patched for a pool at p. */
  ghost predicate Patched(e: LDREntry, was: seq<Word>, now: seq<Word>, p: nat)
    requires e.ptr < |was| == |now|
  {
    && Reaches(e.kind, now[e.ptr], e.ptr) == 4 * (p + e.data)
    && Kept(e.kind, now[e.ptr]) == Kept(e.kind, was[e.ptr])
  }

  lemma {:induction false} LowTwelve(w: Word)
    ensures Third(w & 0xfff) == 0 && Second(w & 0xfff) == ((w >> 8) & 0xf) as Byte && First(w & 0xfff) == (w & 0xff) as Byte
  {
  }

  lemma {:induction false} LowEight(w: Word)
    ensures Third(w & 0xff) == 0 && Second(w & 0xff) == 0 && First(w & 0xff) == (w & 0xff) as Byte && (w & 0xff) & 0xffffff00 == 0
  {
  }

  /** What a load of a word refers to, in terms of its bits: a byte offset that is added or subtracted. */
  lemma {:induction false} LdrMeans(w: Word, i: nat)
    ensures var n := 0x100 * ((w >> 8) & 0xf) as Byte as nat + (w & 0xff) as Byte as nat;
            Reaches(Ldr, w, i) == if w & 0x00800000 != 0 then 4 * i + 8 + n else 4 * i + 8 - n
    ensures Kept(Ldr, w) == w & !0x00800fff
  {
    hide Third, Second, First;
    LowTwelve(w);
    QuarterUp(0);
  }

  /** A load of a coprocessor register has a word offset. */
  lemma {:induction false} LdcMeans(w: Word, i: nat)
    ensures var n := 4 * (w & 0xff) as Byte as nat;
            Reaches(Ldc, w, i) == if w & 0x00800000 != 0 then 4 * i + 8 + n else 4 * i + 8 - n
    ensures Kept(Ldc, w) == w & !0x008000ff
  {
    hide Third, Second, First;
    LowEight(w);
    QuarterUp(0);
  }

  /** An addition turns its eight bits right by twice the four bits above them; fifteen there makes them
      a word offset. */
  lemma {:induction false} AddMeans(w: Word, i: nat)
    ensures w & 0xf00 == 0xf00 ==> Reaches(AddPc, w, i) == 4 * i + 8 + 4 * (w & 0xff) as Byte as nat
    ensures Kept(AddPc, w) == w & !0xfff
  {
    hide Third, Second, First;
    LowEight(w);
    QuarterUp(First(w & 0xff));
    RotatedBits(w & 0xff);
  }

  /** Copies the constants behind the code and makes every recorded instruction refer to its copy;
      gives up on the first constant that is out of reach. */
  method FlushLdr(code: array<Word>, gen: nat, entries: seq<LDREntry>, data: seq<Word>, genJmp: bool) returns (ok: bool, gen': nat)
    requires Placed(entries, gen, Pool(gen, genJmp, |data|), |data|, code.Length) && |data| < 0x7fffff
    modifies code
    ensures
      var p := Pool(gen, genJmp, |data|);
      && (ok <==> forall j :: 0 <= j < |entries| ==> InRange(entries[j].kind, Offset(entries[j], p)))
      && (ok ==> gen' == p + |data| && (forall k :: 0 <= k < |data| ==> code[p + k] == data[k]))
      && (ok ==> forall j :: 0 <= j < |entries| ==> Reaches(entries[j].kind, code[entries[j].ptr], entries[j].ptr) == 4 * (p + entries[j].data))
      && (ok ==> forall j :: 0 <= j < |entries| ==> Kept(entries[j].kind, code[entries[j].ptr]) == Kept(entries[j].kind, old(code[entries[j].ptr])))
      && (ok && genJmp && data != [] ==> BranchTarget(code[gen], gen) == 4 * gen')
      && (ok && genJmp && data != [] ==> code[gen] == RelocPc24(0xeafffffe, |data| + 1) && code[gen] & 0xff000000 == 0xea000000)
    ensures ok ==> gen' == gen + |data| + if genJmp && data != [] then 1 else 0
    ensures ok <==> forall j :: 0 <= j < |entries| ==>
              0 <= 4 * (Pool(gen, genJmp, |data|) + entries[j].data - entries[j].ptr) - 8 < if entries[j].kind == Ldr then 4096 else 1024
    ensures ok ==> forall i :: 0 <= i < code.Length && !(gen <= i < gen') && (forall j :: 0 <= j < |entries| ==> entries[j].ptr != i) ==> code[i] == old(code[i])
  {
    hide Reaches, Kept, Patch, RelocPc24, BranchTarget;
    var at := gen;
    if genJmp {
      if |data| == 0 { return true, gen; }
      BranchLands(gen, |data| + 1);
      RelocKeeps(0xeafffffe, |data| + 1);
      code[at] := RelocPc24(0xeafffffe, |data| + 1);
      at := at + 1;
    }
    var p := at;
    for k := 0 to |data|
      invariant at == p + k
      invariant forall m :: 0 <= m < k ==> code[p + m] == data[m]
      invariant forall i :: 0 <= i < code.Length && !(p <= i < p + k) && !(genJmp && i == gen) ==> code[i] == old(code[i])
      invariant genJmp ==> code[gen] == RelocPc24(0xeafffffe, |data| + 1)
    {
      code[at] := data[k];
      at := at + 1;
    }
    gen' := at;
    ok := PatchAll(code, entries, |data|, p, gen, genJmp, old(code[..]));
    assert ok ==> forall j :: 0 <= j < |entries| ==> Patched(entries[j], old(code[..]), code[..], p);
  }

  method PatchAll(code: array<Word>, entries: seq<LDREntry>, ghost n: nat, p: nat, ghost gen: nat, ghost genJmp: bool, ghost was: seq<Word>) returns (ok: bool)
    requires Placed(entries, gen, p, n, code.Length) && |was| == code.Length
    requires forall i :: 0 <= i < code.Length && !(gen <= i < p + n) ==> code[i] == was[i]
    modifies code
    ensures ok <==> forall j :: 0 <= j < |entries| ==> InRange(entries[j].kind, Offset(entries[j], p))
    ensures ok ==> forall j :: 0 <= j < |entries| ==> Patched(entries[j], was, code[..], p)
    ensures forall i :: 0 <= i < code.Length && (forall j :: 0 <= j < |entries| ==> entries[j].ptr != i) ==> code[i] == old(code[i])
  {
    hide Reaches, Kept, Patch, InRange;
    for j := 0 to |entries|
      invariant forall m :: 0 <= m < j ==> InRange(entries[m].kind, Offset(entries[m], p)) && Patched(entries[m], was, code[..], p)
      invariant forall m :: j <= m < |entries| ==> code[entries[m].ptr] == was[entries[m].ptr]
      invariant forall i :: 0 <= i < code.Length && (forall m :: 0 <= m < j ==> entries[m].ptr != i) ==> code[i] == old(code[i])
    {
      var e := entries[j];
      var offset := Offset(e, p);
      if !InRange(e.kind, offset) { return false; }
      InRangeNat(e.kind, offset);
      PatchReaches(e.kind, code[e.ptr], offset, e.ptr);
      code[e.ptr] := Patch(e.kind, code[e.ptr], offset);
    }
    ok := true;
  }

  lemma {:induction false} InRangeNat(kind: Kind, offset: int)
    requires InRange(kind, offset)
    ensures 0 <= offset
  {
  }
}
