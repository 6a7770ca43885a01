/** The instruction-length decoder and prologue copier of
    injector/injector.cpp.  Code is a sequence of bytes; `simpleSize` reads
    the 32-bit little-endian word at an offset and looks it up in a table of
    masked opcode patterns, and `copy` moves whole instructions from one
    buffer to another until at least `count` bytes are copied. */
module Injector {
  import opened Wrappers

  type Byte = bv8
  type Dword = bv32

  /** One row of `instructions`: the word matches when `word & mask == ins`. */
  datatype SimpleInstruction = SimpleInstruction(ins: Dword, mask: Dword, size: nat)

  /** `instructions[]`, ending with the mask-0 sentinel. */
  const Instructions: seq<SimpleInstruction> := [
    SimpleInstruction(0x50, 0xF0, 1),          // push register
    SimpleInstruction(0x24448B, 0xFFFFFF, 4),  // mov eax, dword ptr [esp+4]
    SimpleInstruction(0x00C085, 0x00FFFF, 2),  // test eax, eax
    SimpleInstruction(0, 0, 0)
  ]

  /** `*(DWORD*)code` on a little-endian machine. */
  function Word(code: seq<Byte>, at: nat): Dword
    requires at + 4 <= |code|
  {
    (code[at] as Dword)
    | ((code[at + 1] as Dword) << 8)
    | ((code[at + 2] as Dword) << 16)
    | ((code[at + 3] as Dword) << 24)
  }

  predicate Fits(row: SimpleInstruction, word: Dword) {
    word & row.mask == row.ins
  }

  /** The table scan of `simpleSize`: the first row before the sentinel that
      fits the word. */
  function FirstFit(table: seq<SimpleInstruction>, word: Dword): (r: Option<nat>)
    ensures r.Some? ==> r.value < |table| && table[r.value].mask != 0 && Fits(table[r.value], word)
    ensures r.Some? ==> forall j :: 0 <= j < r.value ==> table[j].mask != 0 && !Fits(table[j], word)
    ensures r.None? ==> forall j :: 0 <= j < |table| && (forall i :: 0 <= i < j ==> table[i].mask != 0) ==>
                          table[j].mask == 0 || !Fits(table[j], word)
    decreases |table|
  {
    if table == [] || table[0].mask == 0 then None
    else if Fits(table[0], word) then Some(0)
    else match FirstFit(table[1..], word)
      case Some(k) => Some(k + 1)
      case None => None
  }

  /** `simpleSize(code + at)`: the length of the instruction at `at`, or 0
      when the table does not know it.  It reads four bytes whatever the
      instruction's length. */
  function SimpleSize(code: seq<Byte>, at: nat): (r: nat)
    requires at + 4 <= |code|
    ensures r == 0 || r == 1 || r == 2 || r == 4
  {
    match FirstFit(Instructions, Word(code, at))
    case Some(k) => Instructions[k].size
    case None => 0
  }

  /** Any byte 0x50 to 0x5F (`push r32` and `pop r32`) is one byte long. */
  lemma PushRegisterIsOneByte(code: seq<Byte>, at: nat)
    requires at + 4 <= |code| && 0x50 <= code[at] <= 0x5F
    ensures SimpleSize(code, at) == 1
  {
    assert Word(code, at) & 0xF0 == 0x50;
    assert FirstFit(Instructions, Word(code, at)) == Some(0);
  }

  /** `8B 44 24 xx` (`mov eax, [esp+xx]`) is four bytes long. */
  lemma MovFromStackIsFourBytes(code: seq<Byte>, at: nat)
    requires at + 4 <= |code| && code[at] == 0x8B && code[at + 1] == 0x44 && code[at + 2] == 0x24
    ensures SimpleSize(code, at) == 4
  {
    var w := Word(code, at);
    assert w & 0xF0 == 0x80;
    assert w & 0xFFFFFF == 0x24448B;
    assert !Fits(Instructions[0], w) && Fits(Instructions[1], w);
    var tail := Instructions[1..];
    assert tail[0] == Instructions[1];
    assert FirstFit(tail, w) == Some(0);
    assert FirstFit(Instructions, w) == Some(1);
  }

  /** `85 C0` (`test eax, eax`) is two bytes long. */
  lemma TestEaxIsTwoBytes(code: seq<Byte>, at: nat)
    requires at + 4 <= |code| && code[at] == 0x85 && code[at + 1] == 0xC0
    ensures SimpleSize(code, at) == 2
  {
    var w := Word(code, at);
    assert w & 0xF0 == 0x80;
    assert w & 0xFF == 0x85;
    assert w & 0xFFFFFF != 0x24448B;
    assert w & 0xFFFF == 0xC085;
    assert !Fits(Instructions[0], w) && !Fits(Instructions[1], w) && Fits(Instructions[2], w);
    var tail := Instructions[1..];
    var rest := tail[1..];
    assert tail[0] == Instructions[1] && rest[0] == Instructions[2];
    assert FirstFit(rest, w) == Some(0);
    assert FirstFit(tail, w) == Some(1);
    assert FirstFit(Instructions, w) == Some(2);
  }

  /** Where `copy`'s walk over `code` stops, starting at `at`, and whether
      it reached `count` (`ok`) or met an unknown instruction at `stop`. */
  datatype Walked = Walked(stop: nat, ok: bool)

  /** The instruction walk of `copy`: from `at`, step over decoded
      instructions while fewer than `count` bytes are behind. */
  function Walk(code: seq<Byte>, at: nat, count: nat): (r: Walked)
    requires count + 3 <= |code| && at <= count + 3
    ensures at <= r.stop <= count + 3 || (at >= count && r.stop == at)
    ensures r.ok ==> count <= r.stop && (at < count ==> r.stop < count + 4)
    ensures !r.ok ==> r.stop < count && SimpleSize(code, r.stop) == 0
    decreases count - at
  {
    if at >= count then Walked(at, true)
    else
      var n := SimpleSize(code, at);
      if n == 0 then Walked(at, false) else Walk(code, at + n, count)
  }

  /** `copy`'s result for a walk: the bytes copied, or 0 on an unknown
      instruction. */
  function Copied(w: Walked): nat {
    if w.ok then w.stop else 0
  }

  /** A successful copy covers at least `count` bytes and overshoots by at
      most three, the length of the longest instruction minus one; nothing is
      copied for `count == 0`. */
  lemma {:induction false} CopyBounds(code: seq<Byte>, count: nat)
    requires count + 3 <= |code|
    ensures var w := Walk(code, 0, count);
      (count == 0 ==> w == Walked(0, true) && Copied(w) == 0) &&
      (count > 0 && w.ok ==> count <= Copied(w) < count + 4) &&
      (!w.ok ==> Copied(w) == 0)
  {
  }

  /** Every step of the walk lands on an instruction boundary: the stop is
      the start plus the lengths of the instructions stepped over. */
  lemma {:induction false} WalkSteps(code: seq<Byte>, at: nat, count: nat)
    requires count + 3 <= |code| && at < count
    requires SimpleSize(code, at) != 0
    ensures Walk(code, at, count) == Walk(code, at + SimpleSize(code, at), count)
  {
  }

  /** The walk ends where it starts once `count` bytes are behind. */
  lemma WalkReached(code: seq<Byte>, at: nat, count: nat)
    requires count + 3 <= |code| && count <= at <= count + 3
    ensures Walk(code, at, count) == Walked(at, true)
  {
  }

  /** The walk fails where an unknown instruction starts. */
  lemma WalkStuck(code: seq<Byte>, at: nat, count: nat)
    requires count + 3 <= |code| && at < count && SimpleSize(code, at) == 0
    ensures Walk(code, at, count) == Walked(at, false)
  {
  }

  /** A typical prologue, `push ebp; mov eax, [esp+4]; test eax, eax`:
      asking for 5 bytes copies the first two instructions, exactly 5. */
  lemma PrologueExample(code: seq<Byte>)
    requires |code| == 8
    requires code[0] == 0x55 && code[1] == 0x8B && code[2] == 0x44 && code[3] == 0x24
    requires code[4] == 0x04 && code[5] == 0x85 && code[6] == 0xC0
    ensures Walk(code, 0, 5) == Walked(5, true)
  {
    PushRegisterIsOneByte(code, 0);
    MovFromStackIsFourBytes(code, 1);
    assert Walk(code, 0, 5) == Walk(code, 1, 5);
    assert Walk(code, 1, 5) == Walk(code, 5, 5);
  }

  /** `memcpy(dst + at, src + at, n)`. */
  method MemCopy(dst: array<Byte>, src: array<Byte>, at: nat, n: nat)
    requires dst != src && at + n <= dst.Length && at + n <= src.Length
    modifies dst
    ensures dst[..at] == old(dst[..at]) && dst[at + n..] == old(dst[at + n..])
    ensures dst[at..at + n] == src[at..at + n]
  {
    var k := 0;
    while k < n
      invariant 0 <= k <= n
      invariant dst[..at] == old(dst[..at]) && dst[at + n..] == old(dst[at + n..])
      invariant dst[at..at + k] == src[at..at + k]
    {
      dst[at + k] := src[at + k];
      assert dst[at..at + k + 1] == dst[at..at + k] + [dst[at + k]];
      assert src[at..at + k + 1] == src[at..at + k] + [src[at + k]];
      k := k + 1;
    }
  }

  /** Copying the next `n` bytes extends an equal prefix. */
  lemma PrefixGrows(d: seq<Byte>, s: seq<Byte>, at: nat, n: nat)
    requires at + n <= |d| && at + n <= |s|
    requires d[..at] == s[..at] && d[at..at + n] == s[at..at + n]
    ensures d[..at + n] == s[..at + n]
  {
    assert d[..at + n] == d[..at] + d[at..at + n];
    assert s[..at + n] == s[..at] + s[at..at + n];
  }

  /** `copy(dst, src, count)`: whole instructions are copied until at least
      `count` bytes are; the result is the number copied, or 0 as soon as an
      instruction of unknown length is met.  Either way the bytes before the
      point the walk stopped are copied and nothing after it is written. */
  method Copy(dst: array<Byte>, src: array<Byte>, count: nat) returns (done: nat)
    requires dst != src && count + 3 <= src.Length && count + 3 <= dst.Length
    modifies dst
    ensures var w := Walk(src[..], 0, count);
      done == Copied(w) &&
      dst[..w.stop] == src[..w.stop] &&
      dst[w.stop..] == old(dst[w.stop..])
  {
    ghost var code := src[..];
    ghost var orig := dst[..];
    done := 0;
    while done < count
      invariant done <= count + 3 && src[..] == code
      invariant Walk(code, done, count) == Walk(code, 0, count)
      invariant dst[..done] == code[..done]
      invariant dst[done..] == orig[done..]
      decreases count - done
    {
      var size := SimpleSize(src[..], done);
      if size == 0 {
        WalkStuck(code, done, count);
        return 0;
      }
      WalkSteps(code, done, count);
      assert dst[done + size..] == dst[done..][size..] == orig[done..][size..] == orig[done + size..];
      MemCopy(dst, src, done, size);
      PrefixGrows(dst[..], code, done, size);
      done := done + size;
    }
    WalkReached(code, done, count);
  }
}
