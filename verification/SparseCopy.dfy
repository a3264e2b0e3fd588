/**
  The copy loop of cp, which seeks over chunks of zeroes and sets the length at the end
  (copy_file in usr/src/bin/cp/utils.c).
 */
module SparseCopy {
  import opened Bytes

  const MAXBSIZE: nat := 65536

  /** A file cut or filled up with zeroes to a length. */
  function Resized(s: seq<byte>, n: nat): (r: seq<byte>)
    ensures |r| == n && forall i :: 0 <= i < n ==> r[i] == if i < |s| then s[i] else 0
  {
    if n <= |s| then s[..n] else s + Zeros(n - |s|)
  }

  /** Writing at an offset; a gap behind the old end reads as zeroes. */
  function Written(s: seq<byte>, offset: nat, buf: seq<byte>): seq<byte> {
    if buf == [] then s
    else Resized(s, offset) + buf + (if offset + |buf| <= |s| then s[offset + |buf|..] else [])
  }

  /** A file open for reading. */
  class Source {
    const text: seq<byte>
    const faulty: bool                   // whether calls may fail
    var offset: nat

    constructor (text: seq<byte>, faulty: bool)
      ensures this.text == text && this.faulty == faulty && offset == 0
    {
      this.text, this.faulty, offset := text, faulty, 0;
    }

    /** read(2): None is an error. */
    method Read() returns (ok: bool, buf: seq<byte>)
      requires offset <= |text|
      modifies this
      ensures old(offset) <= offset <= |text| && buf == text[old(offset)..offset] && |buf| <= MAXBSIZE
      ensures !ok ==> faulty && buf == []
      ensures ok && buf == [] ==> offset == |text|
    {
      ok := *;
      if faulty && !ok {
        return false, [];
      }
      if offset == |text| {
        return true, [];
      }
      var left := |text| - offset;
      var c :| 1 <= c <= MAXBSIZE && c <= left;
      buf := text[offset..offset + c];
      offset := offset + c;
      return true, buf;
    }
  }

  /** A file open for writing, empty at first. */
  class Target {
    const faulty: bool
    var content: seq<byte>
    var offset: nat

    constructor (faulty: bool)
      ensures this.faulty == faulty && content == [] && offset == 0
    {
      this.faulty, content, offset := faulty, [], 0;
    }

    /** write(2): how much was written, -1 for an error. */
    method Write(buf: seq<byte>) returns (wcount: int)
      modifies this
      ensures -1 <= wcount <= |buf| && (wcount < |buf| ==> faulty)
      ensures content == Written(old(content), old(offset), buf[..if wcount < 0 then 0 else wcount])
      ensures offset == old(offset) + if wcount < 0 then 0 else wcount
    {
      wcount := |buf|;
      if faulty {
        wcount :| -1 <= wcount <= |buf|;
      }
      var n := if wcount < 0 then 0 else wcount;
      content := Written(content, offset, buf[..n]);
      offset := offset + n;
    }

    /** lseek(2) by n from where the file stands. */
    method Skip(n: nat) returns (ok: bool)
      modifies this`offset
      ensures !ok ==> faulty
      ensures offset == if ok then old(offset) + n else old(offset)
    {
      ok := *;
      if faulty && !ok {
        return false;
      }
      offset := offset + n;
      return true;
    }

    method Truncate(n: nat) returns (ok: bool)
      modifies this`content
      ensures !ok ==> faulty
      ensures content == if ok then Resized(old(content), n) else old(content)
    {
      ok := *;
      if faulty && !ok {
        return false;
      }
      content := Resized(content, n);
      return true;
    }
  }

  /** The target holds what was read, up to zeroes at the end that were only seeked over. */
  ghost predicate InStep(content: seq<byte>, offset: nat, done: seq<byte>) {
    |content| <= offset == |done| && Resized(content, offset) == done
  }

  lemma WriteKeepsStep(content: seq<byte>, offset: nat, done: seq<byte>, buf: seq<byte>)
    requires InStep(content, offset, done) && buf != []
    ensures Written(content, offset, buf) == done + buf
    ensures InStep(Written(content, offset, buf), offset + |buf|, done + buf)
  {
    assert Written(content, offset, buf) == done + buf;
  }

  lemma SkipKeepsStep(content: seq<byte>, offset: nat, done: seq<byte>, buf: seq<byte>)
    requires InStep(content, offset, done) && buf == Zeros(|buf|)
    ensures InStep(content, offset + |buf|, done + buf)
  {
    forall i | 0 <= i < offset + |buf|
      ensures Resized(content, offset + |buf|)[i] == (done + buf)[i]
    {
      if i < offset {
        assert Resized(content, offset)[i] == done[i];
      }
    }
  }

  /** One chunk onto the target; false if a call failed. */
  method PutChunk(to: Target, buf: seq<byte>, skipholes: bool, ghost done: seq<byte>) returns (ok: bool)
    requires buf != [] && InStep(to.content, to.offset, done) && (!skipholes ==> to.content == done)
    modifies to
    ensures !ok ==> to.faulty
    ensures ok ==> InStep(to.content, to.offset, done + buf) && (!skipholes ==> to.content == done + buf)
  {
    var wcount: int;
    if skipholes && buf == Zeros(|buf|) {
      SkipKeepsStep(to.content, to.offset, done, buf);
      var sought := to.Skip(|buf|);
      wcount := if sought then |buf| else -1;
    } else {
      WriteKeepsStep(to.content, to.offset, done, buf);
      wcount := to.Write(buf);
      assert wcount == |buf| ==> buf[..wcount] == buf;
    }
    return wcount == |buf|;
  }

  /**
    copy_file from the loop to its verdict; stSize is the length stat gave for the source, and
    skipholes says that the target is a regular file.
   */
  method CopyFile(from: Source, to: Target, stSize: nat, skipholes: bool) returns (rval: int)
    requires from.offset == 0 && to.content == [] && to.offset == 0
    modifies from, to
    ensures rval == 0 || (rval == 1 && (from.faulty || to.faulty))
    ensures rval == 0 ==> to.content == if skipholes then Resized(from.text, stSize) else from.text
    ensures rval == 0 ==> (to.content == from.text <==> !skipholes || stSize == |from.text|)
  {
    rval := 0;
    var ok, buf := from.Read();
    while ok && buf != []
      invariant |buf| <= from.offset <= |from.text| && buf == from.text[from.offset - |buf|..from.offset]
      invariant rval == 0 && (!ok ==> from.faulty && buf == []) && (ok && buf == [] ==> from.offset == |from.text|)
      invariant InStep(to.content, to.offset, from.text[..from.offset - |buf|])
      invariant !skipholes ==> to.content == from.text[..from.offset - |buf|]
      decreases |from.text| - from.offset, |buf|
    {
      ghost var done := from.text[..from.offset - |buf|];
      assert done + buf == from.text[..from.offset];
      var put := PutChunk(to, buf, skipholes, done);
      if !put {
        rval := 1;
        break;
      }
      ok, buf := from.Read();
    }
    if skipholes && ok {
      ok := to.Truncate(stSize);
    }
    if !ok {
      rval := 1;
    }
    if rval == 0 {
      assert from.text[..|from.text|] == from.text;
    }
  }
}
