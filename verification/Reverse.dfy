/** The two file reversals of cw03, byte by byte and block by block, over a seekable input file and
    an output file that is only appended to. A seek to a position before the start fails and
    leaves the position where it was; both programs rely on that at the very end. Read and write
    errors do not occur. */
module Reverse {
  import opened Basics
  import opened Modular

  function Reversed<T>(s: seq<T>): (r: seq<T>)
    ensures |r| == |s| && forall i :: 0 <= i < |s| ==> r[i] == s[|s| - 1 - i]
  {
    seq(|s|, i requires 0 <= i < |s| => s[|s| - 1 - i])
  }

  lemma ReversedTwice<T>(s: seq<T>)
    ensures Reversed(Reversed(s)) == s
  {
  }

  lemma ReversedConcat<T>(a: seq<T>, b: seq<T>)
    ensures Reversed(a + b) == Reversed(b) + Reversed(a)
  {
    var n := |a| + |b|;
    forall i | 0 <= i < n ensures Reversed(a + b)[i] == (Reversed(b) + Reversed(a))[i] {
      if i < |b| {
        assert (a + b)[n - 1 - i] == b[|b| - 1 - i];
      } else {
        assert (a + b)[n - 1 - i] == a[n - 1 - i];
      }
    }
  }

  class InFile {
    const data: seq<byte>
    var pos: nat

    constructor (data: seq<byte>)
      ensures this.data == data && pos == 0
    {
      this.data := data;
      pos := 0;
    }

    // fseek(_, offset, SEEK_END)
    method SeekEnd(offset: int) returns (ok: bool)
      modifies this
      ensures ok == (|data| + offset >= 0)
      ensures pos == if ok then |data| + offset else old(pos)
    {
      ok := |data| + offset >= 0;
      if ok { pos := |data| + offset; }
    }

    // fseek(_, offset, SEEK_CUR)
    method SeekCurrent(offset: int) returns (ok: bool)
      modifies this
      ensures ok == (old(pos) + offset >= 0)
      ensures pos == if ok then old(pos) + offset else old(pos)
    {
      ok := pos + offset >= 0;
      if ok { pos := pos + offset; }
    }

    // fgetc: -1 at the end of the file
    method GetChar() returns (c: int)
      modifies this
      ensures old(pos) < |data| ==> c == data[old(pos)] && pos == old(pos) + 1
      ensures old(pos) >= |data| ==> c == -1 && pos == old(pos)
    {
      if pos < |data| {
        c := data[pos];
        pos := pos + 1;
      } else {
        c := -1;
      }
    }

    // fread(buf, 1, |buf|, _)
    method Read(buf: array<byte>) returns (n: nat)
      modifies this, buf
      ensures n == if old(pos) >= |data| then 0
                   else if |data| - old(pos) < buf.Length then |data| - old(pos) else buf.Length
      ensures pos == old(pos) + n
      ensures n > 0 ==> old(pos) + n <= |data| && buf[..n] == data[old(pos)..old(pos) + n]
    {
      n := 0;
      while n < buf.Length && pos < |data|
        invariant n <= buf.Length && pos == old(pos) + n
        invariant n > 0 ==> pos <= |data|
        invariant forall i :: 0 <= i < n ==> buf[i] == data[old(pos) + i]
      {
        buf[n] := data[pos];
        n, pos := n + 1, pos + 1;
      }
    }
  }

  class OutFile {
    var data: seq<byte>

    constructor ()
      ensures data == []
    {
      data := [];
    }
  }

  // ---------------------------------------------------------------- byte by byte

  method ReverseFileByBytes(infile: InFile, outfile: OutFile) returns (status: int)
    modifies infile, outfile
    ensures status == if infile.data == [] then -1 else 0
    ensures outfile.data == old(outfile.data) + Reversed(infile.data)
  {
    ghost var data := infile.data;
    var ok := infile.SeekEnd(-1);
    if !ok {
      return -1;
    }
    var bytesRemaining := infile.pos + 1;
    while bytesRemaining > 0
      invariant 0 <= bytesRemaining <= |data|
      invariant bytesRemaining > 0 ==> infile.pos == bytesRemaining - 1
      invariant outfile.data == old(outfile.data) + Reversed(data[bytesRemaining..])
    {
      var c := infile.GetChar();
      outfile.data := outfile.data + [c];
      // at the start of the file this seek fails, and the loop ends
      var moved := infile.SeekCurrent(-2);
      ghost var k := bytesRemaining - 1;
      assert data[k..] == [data[k]] + data[bytesRemaining..];
      ReversedConcat([data[k]], data[bytesRemaining..]);
      bytesRemaining := bytesRemaining - 1;
    }
    assert data[0..] == data;
    status := 0;
  }

  // ---------------------------------------------------------------- block by block

  // Reverses the first `length` bytes of the buffer in place.
  method ReverseText(text: array<byte>, length: nat)
    requires length <= text.Length
    modifies text
    ensures text[..length] == Reversed(old(text[..length]))
    ensures text[length..] == old(text[length..])
  {
    for i := 0 to length / 2
      invariant forall k :: 0 <= k < i ==> text[k] == old(text[length - 1 - k]) && text[length - 1 - k] == old(text[k])
      invariant forall k :: i <= k < length - i ==> text[k] == old(text[k])
      invariant forall k :: length <= k < text.Length ==> text[k] == old(text[k])
    {
      var temp := text[i];
      text[i] := text[length - i - 1];
      text[length - i - 1] := temp;
    }
  }

  const SIZE_MODULUS: int := 0x1_0000_0000_0000_0000

  // The value a long gets from a size_t expression, both 64 bits wide.
  function AsLong(x: int): int {
    var u := x % SIZE_MODULUS;
    if u < SIZE_MODULUS / 2 then u else u - SIZE_MODULUS
  }

  // -BLOCK_SIZE - bytes_read is computed in size_t, and comes out as the negative number it looks like.
  lemma BackwardOffset(blockSize: int, n: int)
    requires 0 <= n <= blockSize && 0 < blockSize <= 0x4000_0000_0000_0000
    ensures AsLong(-blockSize - n) == -blockSize - n
  {
    assert (-blockSize - n) % SIZE_MODULUS == SIZE_MODULUS - blockSize - n;
  }

  function Min(a: nat, b: nat): nat { if a < b then a else b }

  // Where the file position is while `remaining` bytes are still to be reversed: at first on the
  // last multiple of the block size, and from then on one block before what remains.
  ghost predicate CursorOk(size: nat, blockSize: nat, pos: nat, remaining: nat)
    requires blockSize > 0
  {
    remaining > 0 ==>
      || (remaining == size && pos == size - size % blockSize)
      || (remaining % blockSize == 0 && remaining <= size && pos == remaining - blockSize)
  }

  lemma CursorStart(size: nat, blockSize: nat)
    requires blockSize > 0
    ensures size % blockSize <= size && CursorOk(size, blockSize, size - size % blockSize, size)
  {
    assert size == blockSize * (size / blockSize) + size % blockSize;
    MulBounds(blockSize, size / blockSize);
  }

  // A position that is a multiple of the block size is 0 or at least one block in.
  lemma WholeBlocks(pos: nat, m: int, blockSize: nat)
    requires blockSize > 0 && pos == blockSize * m
    ensures pos % blockSize == 0 && (pos > 0 ==> pos >= blockSize)
  {
    DivModUnique(pos, m, 0, blockSize);
    MulBounds(blockSize, m);
  }

  // A pass reads up to exactly where the remaining bytes end, and the seek after it either lands
  // one block before what is left, or fails because nothing is.
  lemma CursorStep(size: nat, blockSize: nat, pos: nat, remaining: nat)
    requires blockSize > 0 && 0 < remaining && CursorOk(size, blockSize, pos, remaining)
    ensures pos <= size && pos + Min(blockSize, size - pos) == remaining <= size
    ensures var target := remaining - blockSize - (remaining - pos);
      && CursorOk(size, blockSize, if target >= 0 then target else remaining, pos)
      && (pos == remaining ==> 0 <= target < pos)
  {
    if remaining == size && pos == size - size % blockSize {
      WholeBlocks(pos, size / blockSize, blockSize);
    } else {
      WholeBlocks(pos, remaining / blockSize - 1, blockSize);
    }
  }

  // One pass of the loop.
  method ReverseBlock(infile: InFile, outfile: OutFile, buf: array<byte>, bytesRemaining: nat) returns (left: nat)
    requires 0 < buf.Length <= 0x4000_0000_0000_0000
    requires 0 < bytesRemaining <= |infile.data| && CursorOk(|infile.data|, buf.Length, infile.pos, bytesRemaining)
    modifies infile, outfile, buf
    ensures left <= bytesRemaining && CursorOk(|infile.data|, buf.Length, infile.pos, left)
    ensures outfile.data == old(outfile.data) + Reversed(infile.data[left..bytesRemaining])
    ensures left == bytesRemaining ==> infile.pos < old(infile.pos)
  {
    ghost var data := infile.data;
    CursorStep(|data|, buf.Length, infile.pos, bytesRemaining);
    var bytesRead := infile.Read(buf);
    left := bytesRemaining - bytesRead;
    assert data[left..bytesRemaining] == buf[..bytesRead];
    ReverseText(buf, bytesRead);
    outfile.data := outfile.data + buf[..bytesRead];
    BackwardOffset(buf.Length, bytesRead);
    var moved := infile.SeekCurrent(AsLong(-buf.Length - bytesRead));
  }

  method ReverseFileByBlocks(infile: InFile, outfile: OutFile, blockSize: nat) returns (status: int)
    requires 0 < blockSize <= 0x4000_0000_0000_0000
    modifies infile, outfile
    ensures status == 0
    ensures outfile.data == old(outfile.data) + Reversed(infile.data)
  {
    ghost var data := infile.data;
    var ok := infile.SeekEnd(0);
    var bytesRemaining := infile.pos;
    var buf := new byte[blockSize];
    CursorStart(bytesRemaining, blockSize);
    ok := infile.SeekEnd(bytesRemaining % blockSize * -1);
    if !ok {
      return -1;
    }
    while bytesRemaining > 0
      invariant 0 <= bytesRemaining <= |data|
      invariant CursorOk(|data|, blockSize, infile.pos, bytesRemaining)
      invariant outfile.data == old(outfile.data) + Reversed(data[bytesRemaining..])
      // the first pass reads nothing if the size is a multiple of the block size
      decreases bytesRemaining, infile.pos
    {
      var left := ReverseBlock(infile, outfile, buf, bytesRemaining);
      assert data[left..] == data[left..bytesRemaining] + data[bytesRemaining..];
      ReversedConcat(data[left..bytesRemaining], data[bytesRemaining..]);
      bytesRemaining := left;
    }
    assert data[0..] == data;
    status := 0;
  }

  // ---------------------------------------------------------------- whole programs

  datatype Program = ByBytes | ByBlocks(blockSize: nat)

  ghost predicate Runnable(p: Program) { p.ByBlocks? ==> 0 < p.blockSize <= 0x4000_0000_0000_0000 }

  // main: a fresh output file, filled by whichever variant was compiled.
  method RunProgram(p: Program, input: seq<byte>) returns (output: seq<byte>)
    requires Runnable(p)
    ensures output == Reversed(input)
  {
    var infile := new InFile(input);
    var outfile := new OutFile();
    var status;
    match p {
      case ByBytes => status := ReverseFileByBytes(infile, outfile);
      case ByBlocks(b) => status := ReverseFileByBlocks(infile, outfile, b);
    }
    output := outfile.data;
  }

  // Any two variants, run one after the other, restore the file.
  method RunTwice(p: Program, q: Program, input: seq<byte>) returns (output: seq<byte>)
    requires Runnable(p) && Runnable(q)
    ensures output == input
  {
    var reversed := RunProgram(p, input);
    output := RunProgram(q, reversed);
    ReversedTwice(input);
  }
}
