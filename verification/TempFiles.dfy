/** Temporary files as the operating system gives them: reads, seeks, and removal. */
module TempFiles {
  import opened Outcomes

  datatype Whence = Start | Current | End
  datatype Error = StorageClosed | EndOfFile | NegativePosition | TooLarge | DiskFailed

  function Min(a: int, b: int): int {
    if a < b then a else b
  }

  function Base(whence: Whence, pos: nat, size: nat): nat {
    match whence case Start => 0 case Current => pos case End => size
  }

  /** An open temporary file; reads of a regular file are only cut short by its end. */
  class TempFile {
    const content: seq<Byte>
    var offset: nat
    var open: bool
    var present: bool

    constructor (bytes: seq<Byte>)
      ensures content == bytes && offset == 0 && open && present
    {
      content, offset, open, present := bytes, 0, true, true;
    }

    method Read(n: nat) returns (r: Result<seq<Byte>, Error>)
      requires open && n > 0
      modifies this`offset
      ensures offset == (if old(offset) >= |content| then old(offset) else Min(old(offset) + n, |content|))
      ensures r == if old(offset) >= |content| then Err(EndOfFile) else Ok(content[old(offset)..offset])
    {
      if offset >= |content| {
        return Err(EndOfFile);
      }
      var next := Min(offset + n, |content|);
      r := Ok(content[offset..next]);
      offset := next;
    }

    /** io.ReadFull: keeps reading until the buffer is full or the file ends. */
    method ReadFull(n: nat) returns (r: Result<seq<Byte>, Error>)
      requires open
      modifies this`offset
      ensures old(offset) + n <= |content| ==>
        r == Ok(content[old(offset)..old(offset) + n]) && offset == old(offset) + n
      ensures n > 0 && old(offset) + n > |content| ==> r == Err(EndOfFile)
    {
      ghost var from := offset;
      var got: seq<Byte> := [];
      while |got| < n
        invariant |got| <= n && offset == from + |got|
        invariant |got| > 0 ==> offset <= |content|
        invariant offset <= |content| ==> got == content[from..offset]
        decreases n - |got|
      {
        var chunk := Read(n - |got|);
        if chunk.Err? {
          return Err(EndOfFile);
        }
        got := got + chunk.value;
      }
      return Ok(got);
    }

    method Seek(off: int, whence: Whence) returns (r: Result<int, Error>)
      requires open
      modifies this`offset
      ensures var target := Base(whence, old(offset), |content|) + off;
        if target < 0 then offset == old(offset) && r == Err(NegativePosition) else offset == target && r == Ok(target)
    {
      var target := Base(whence, offset, |content|) + off;
      if target < 0 {
        return Err(NegativePosition);
      }
      offset := target;
      r := Ok(target);
    }

    method CloseAndRemove()
      modifies this
      ensures !open && !present && offset == old(offset)
    {
      open := false;
      present := false;
    }
  }
}
