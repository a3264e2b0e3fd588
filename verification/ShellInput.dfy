/**
  The input buffers of the C shell's reader: bgetc, bfree, bseek and btell
  (usr/src/bin/csh/lex.c).  Input that can be seeked has one block over the file, other
  input a growing list of blocks from which loops re-read.
 */
module ShellInput {
  import opened Bytes

  const BUFSIZ: nat := 1024

  // ----- Input that can be seeked

  datatype Op = Get | Seek(to: nat)

  /** What reading a file directly at a position gives. */
  function ByteAt(file: seq<byte>, pos: nat): int {
    if pos < |file| then file[pos] as int else -1
  }

  function Reads(file: seq<byte>, pos: nat, ops: seq<Op>): seq<int>
    decreases |ops|
  {
    if ops == [] then []
    else match ops[0]
      case Seek(to) => Reads(file, to, ops[1..])
      case Get => [ByteAt(file, pos)] + Reads(file, if pos < |file| then pos + 1 else pos, ops[1..])
  }

  function Gets(n: nat): (ops: seq<Op>)
    ensures |ops| == n
  {
    seq(n, _ => Get)
  }

  lemma {:induction false} GetsRead(file: seq<byte>, pos: nat, n: nat, k: nat)
    requires k < n
    ensures |Reads(file, pos, Gets(n))| == n && Reads(file, pos, Gets(n))[k] == ByteAt(file, pos + k)
    decreases n
  {
    assert Gets(n)[1..] == Gets(n - 1);
    var next := if pos < |file| then pos + 1 else pos;
    if k > 0 {
      GetsRead(file, next, n - 1, k - 1);
    } else if n > 1 {
      GetsRead(file, next, n - 1, 0);
    }
  }

  /** Wherever the input stands and whatever was read, a seek back reads the file again from there. */
  lemma {:induction false} SeekReads(file: seq<byte>, pos: nat, ops: seq<Op>, to: nat, n: nat, k: nat)
    requires k < n
    ensures var out := Reads(file, pos, ops + [Seek(to)] + Gets(n));
            |out| >= n && out[|out| - n + k] == ByteAt(file, to + k)
    decreases |ops|
  {
    var all := ops + [Seek(to)] + Gets(n);
    if ops == [] {
      assert all[1..] == Gets(n);
      GetsRead(file, to, n, k);
    } else {
      assert all[1..] == ops[1..] + [Seek(to)] + Gets(n);
      var next := match ops[0] case Seek(p) => p case Get => if pos < |file| then pos + 1 else pos;
      SeekReads(file, next, ops[1..], to, n, k);
    }
  }

  class Seekable {
    const file: seq<byte>
    var offset: nat                      // where the kernel stands in the file
    var fseekp: nat
    var fbobp: nat
    var feobp: nat
    const fbuf: array<byte>

    /** The kernel stands at feobp, and the buffer is the file from fbobp to there. */
    ghost predicate Valid()
      reads this, fbuf
    {
      && fbuf.Length == BUFSIZ && offset == feobp
      && fbobp <= feobp <= fbobp + BUFSIZ
      && (fbobp < feobp ==> feobp <= |file|)
      && (forall i :: 0 <= i < feobp - fbobp ==> fbuf[i] == file[fbobp + i])
    }

    /** settell, on a descriptor that stands at `pos`. */
    constructor (file: seq<byte>, pos: nat)
      ensures Valid() && this.file == file && fseekp == pos && fresh(fbuf)
    {
      this.file := file;
      offset, fseekp, fbobp, feobp := pos, pos, pos, pos;
      fbuf := new byte[BUFSIZ];
    }

    /** read(2): any positive number of bytes up to `n`, or none at the end of the file. */
    method Read(n: nat) returns (tbuf: seq<byte>)
      requires n > 0
      modifies this`offset
      ensures |tbuf| <= n && offset == old(offset) + |tbuf|
      ensures old(offset) >= |file| ==> tbuf == []
      ensures old(offset) < |file| ==> 0 < |tbuf| && offset <= |file| && tbuf == file[old(offset)..offset]
    {
      if offset >= |file| {
        return [];
      }
      var left := |file| - offset;
      var c :| 1 <= c <= n && c <= left;
      tbuf := file[offset..offset + c];
      offset := offset + c;
    }

    /** Replaces the block by the next one; c is the number of bytes read. */
    method Refill() returns (c: nat)
      requires Valid()
      modifies this`offset, this`fbobp, this`feobp, fbuf
      ensures Valid() && fbobp == old(feobp) && feobp == fbobp + c
      ensures c == 0 <==> fbobp >= |file|
    {
      fbobp := feobp;
      var tbuf := Read(BUFSIZ);
      c := |tbuf|;
      forall i | 0 <= i < c {
        fbuf[i] := tbuf[i];
      }
      feobp := feobp + c;
    }

    method Bgetc() returns (c: int)
      requires Valid()
      modifies this`offset, this`fseekp, this`fbobp, this`feobp, fbuf
      ensures Valid()
      ensures c == ByteAt(file, old(fseekp))
      ensures fseekp == if c == -1 then old(fseekp) else old(fseekp) + 1
    {
      if fseekp < fbobp || fseekp > feobp {
        fbobp, feobp := fseekp, fseekp;
        offset := fseekp;                  // lseek
      }
      if fseekp == feobp {
        var n := Refill();
        if n == 0 {
          return -1;
        }
      }
      c := fbuf[fseekp - fbobp] as int;
      fseekp := fseekp + 1;
    }

    method Bseek(to: nat)
      requires Valid()
      modifies this`fseekp
      ensures Valid() && fseekp == to
    {
      fseekp := to;
    }

    /** Any interleaving of reads and seeks answers as the file itself would. */
    method Serve(ops: seq<Op>) returns (out: seq<int>)
      requires Valid()
      modifies this`offset, this`fseekp, this`fbobp, this`feobp, fbuf
      ensures Valid() && out == Reads(file, old(fseekp), ops)
    {
      out := [];
      var i := 0;
      assert ops[0..] == ops;
      while i < |ops|
        invariant i <= |ops| && Valid()
        invariant Reads(file, old(fseekp), ops) == out + Reads(file, fseekp, ops[i..])
      {
        ghost var pos := fseekp;
        assert ops[i..][1..] == ops[i + 1..];
        match ops[i] {
          case Seek(to) => Bseek(to);
          case Get =>
            var c := Bgetc();
            assert out + ([c] + Reads(file, fseekp, ops[i + 1..])) == (out + [c]) + Reads(file, fseekp, ops[i + 1..]);
            out := out + [c];
        }
        i := i + 1;
      }
    }
  }

  // ----- Input that cannot be seeked

  /** The characters readc passes on: NULs are skipped. */
  function Visible(s: seq<byte>): seq<byte> {
    if s == [] then [] else (if s[0] == 0 then [] else [s[0]]) + Visible(s[1..])
  }

  lemma {:induction false} VisibleConcat(s: seq<byte>, t: seq<byte>)
    ensures Visible(s + t) == Visible(s) + Visible(t)
  {
    if s == [] {
      assert s + t == t;
    } else {
      var first: seq<byte> := if s[0] == 0 then [] else [s[0]];
      calc {
        Visible(s + t);
        { assert (s + t)[1..] == s[1..] + t; }
        first + Visible(s[1..] + t);
        { VisibleConcat(s[1..], t); }
        first + (Visible(s[1..]) + Visible(t));
        (first + Visible(s[1..])) + Visible(t);
      }
    }
  }

  lemma VisibleFirst(c: byte, s: seq<byte>)
    ensures Visible([c] + s) == (if c == 0 then [] else [c]) + Visible(s)
  {
    assert ([c] + s)[1..] == s;
  }

  lemma {:induction false} ZerosInvisible(n: nat)
    ensures Visible(Zeros(n)) == []
  {
    if n > 0 {
      ZerosInvisible(n - 1);
      assert Zeros(n)[1..] == Zeros(n - 1);
    }
  }

  /** The cell at position p of a buffer that holds `told` and zeros behind it. */
  function Cell(told: seq<byte>, p: nat): byte {
    if p < |told| then told[p] else 0
  }

  /**
    The buffered text went from t0 to t1 and the text still outside from r0 to r1:
    nothing buffered changed, and what was added is what was taken, up to NULs unless `exact`.
   */
  ghost predicate Grown(t0: seq<byte>, r0: seq<byte>, t1: seq<byte>, r1: seq<byte>, exact: bool) {
    && t0 <= t1
    && Visible(t1[|t0|..] + r1) == Visible(r0)
    && (exact ==> t1[|t0|..] + r1 == r0)
  }

  /** Growth shows the same text from every position that was already buffered. */
  lemma GrownFrom(t0: seq<byte>, r0: seq<byte>, t1: seq<byte>, r1: seq<byte>, exact: bool, l: nat)
    requires Grown(t0, r0, t1, r1, exact) && l <= |t0|
    ensures Visible(t1[l..] + r1) == Visible(t0[l..] + r0)
    ensures exact ==> t1[l..] + r1 == t0[l..] + r0
  {
    assert t1[l..] + r1 == t0[l..] + (t1[|t0|..] + r1);
    VisibleConcat(t0[l..], t1[|t0|..] + r1);
    VisibleConcat(t0[l..], r0);
  }

  lemma GrownTwice(t0: seq<byte>, r0: seq<byte>, t1: seq<byte>, r1: seq<byte>, t2: seq<byte>, r2: seq<byte>,
                   exact: bool)
    requires Grown(t0, r0, t1, r1, exact) && Grown(t1, r1, t2, r2, exact)
    ensures Grown(t0, r0, t2, r2, exact)
  {
    GrownFrom(t1, r1, t2, r2, exact, |t0|);
  }

  /** Between two states of the buffer and the text outside it, nothing to be read was lost. */
  ghost predicate Kept(t0: seq<byte>, p0: nat, r0: seq<byte>, t1: seq<byte>, p1: nat, r1: seq<byte>, exact: bool)
    requires p0 <= |t0| && p1 <= |t1|
  {
    t1[p1..] + r1 == t0[p0..] + r0 && Grown(t0, r0, t1, r1, exact)
  }

  lemma NothingChanged(t: seq<byte>, p: nat, r: seq<byte>, exact: bool)
    requires p <= |t|
    ensures Kept(t, p, r, t, p, r, exact)
  {
    assert t[|t|..] + r == r;
  }

  lemma KeptTwice(t0: seq<byte>, p0: nat, r0: seq<byte>, t1: seq<byte>, p1: nat, r1: seq<byte>,
                  t2: seq<byte>, p2: nat, r2: seq<byte>, exact: bool)
    requires p0 <= |t0| && p1 <= |t1| && p2 <= |t2|
    requires Kept(t0, p0, r0, t1, p1, r1, exact) && Kept(t1, p1, r1, t2, p2, r2, exact)
    ensures Kept(t0, p0, r0, t2, p2, r2, exact)
  {
    GrownTwice(t0, r0, t1, r1, t2, r2, exact);
  }

  lemma LineStored(t: seq<byte>, p: nat, line: seq<byte>, r: seq<byte>, exact: bool)
    requires p <= |t|
    ensures Kept(t, p, line + r, t + line, p, r, exact)
  {
    assert (t + line)[|t|..] == line;
    assert (t + line)[p..] == t[p..] + line;
  }

  lemma BlockSkipped(t: seq<byte>, n: nat, r: seq<byte>)
    ensures Kept(t, |t|, r, t + Zeros(n), |t| + n, r, false)
  {
    assert (t + Zeros(n))[|t|..] == Zeros(n);
    VisibleConcat(Zeros(n), r);
    ZerosInvisible(n);
  }

  function FirstOf(s: seq<byte>, n: nat): seq<byte> {
    if |s| <= n then s else s[..n]
  }

  lemma FirstOfSplit(s: seq<byte>, out: seq<byte>, tail: seq<byte>, n: nat)
    requires s == out + tail && |out| <= n && (tail == [] || |out| == n)
    ensures out == FirstOf(s, n)
  {
  }

  lemma Regroup(out: seq<byte>, c: byte, tail: seq<byte>)
    ensures out + ([c] + tail) == (out + [c]) + tail
  {
  }

  class Unseekable {
    const intty: bool
    const filec: bool
    var rest: seq<byte>                  // what the descriptor has yet to deliver
    var fbuf: seq<array<byte>>
    var fseekp: nat
    var feobp: nat
    ghost var told: seq<byte>            // the first feobp cells of the blocks

    ghost predicate Valid()
      reads this, fbuf
    {
      && |told| == feobp && fseekp <= feobp <= |fbuf| * BUFSIZ
      && (forall i :: 0 <= i < |fbuf| ==> fbuf[i].Length == BUFSIZ)
      && (forall i, j :: 0 <= i < j < |fbuf| ==> fbuf[i] != fbuf[j])
      && (forall i, j :: 0 <= i < |fbuf| && 0 <= j < BUFSIZ ==> fbuf[i][j] == Cell(told, i * BUFSIZ + j))
    }

    /** What is still to be read: the buffered text from fseekp on and what follows it. */
    ghost function Ahead(): seq<byte>
      requires Valid()
      reads this, fbuf
    {
      told[fseekp..] + rest
    }

    constructor (text: seq<byte>, intty: bool, filec: bool)
      ensures Valid() && Ahead() == text && told == [] && this.intty == intty && this.filec == filec
    {
      this.intty, this.filec := intty, filec;
      rest, fbuf, fseekp, feobp := text, [], 0, 0;
      told := [];
    }

    /** read(2) and tenex: some of the text, none only at its end. */
    method Take(n: nat) returns (line: seq<byte>)
      requires n > 0
      modifies this`rest
      ensures line + rest == old(rest) && |line| <= n
      ensures line == [] <==> old(rest) == []
    {
      if rest == [] {
        return [];
      }
      var c :| 1 <= c <= n && c <= |rest|;
      line, rest := rest[..c], rest[c..];
    }

    method AddBlock()
      requires Valid()
      modifies this`fbuf
      ensures Valid() && |fbuf| == |old(fbuf)| + 1 && fbuf[..|old(fbuf)|] == old(fbuf)
      ensures fresh(set b | b in fbuf && b !in old(fbuf))
    {
      var block := new byte[BUFSIZ](_ => 0);
      fbuf := fbuf + [block];
    }

    /** Skips the rest of the last block. */
    method FreshBuffer()
      requires Valid()
      modifies this`fseekp, this`feobp, this`told
      ensures Valid() && fseekp == feobp == |fbuf| * BUFSIZ
      ensures told == old(told) + Zeros(feobp - old(feobp))
    {
      told := told + Zeros(|fbuf| * BUFSIZ - feobp);
      feobp := |fbuf| * BUFSIZ;
      fseekp := feobp;
    }

    /** Stores a line at feobp, within one block. */
    method Append(line: seq<byte>)
      requires Valid() && feobp < |fbuf| * BUFSIZ && |line| <= BUFSIZ - feobp % BUFSIZ
      modifies this`feobp, this`told, fbuf
      ensures Valid() && told == old(told) + line
    {
      var buf, off := feobp / BUFSIZ, feobp % BUFSIZ;
      var ptr := fbuf[buf];
      forall i | 0 <= i < |line| {
        ptr[off + i] := line[i];
      }
      feobp := feobp + |line|;
      told := told + line;
    }

    ghost predicate Exact() {
      !(intty && filec)
    }

    /** The line held over, or else the next one. */
    method NextLine(held: seq<byte>) returns (line: seq<byte>)
      requires held != [] ==> intty && filec && feobp % BUFSIZ == 0 && |held| <= BUFSIZ
      modifies this`rest
      ensures line + rest == held + old(rest)
      ensures line == [] <==> held + old(rest) == []
      ensures |line| <= BUFSIZ && (!(intty && filec) || held != [] ==> |line| <= BUFSIZ - feobp % BUFSIZ)
    {
      if filec && intty {
        if held != [] {
          line := held;
        } else {
          line := Take(BUFSIZ);
        }
      } else {
        line := Take(BUFSIZ - feobp % BUFSIZ);
      }
    }

    /** Stores a line, unless a fresh block is needed for it first. */
    method Store(line: seq<byte>) returns (stored: bool)
      requires Valid() && fseekp == feobp < |fbuf| * BUFSIZ && |line| <= BUFSIZ
      requires Exact() ==> |line| <= BUFSIZ - feobp % BUFSIZ
      modifies this`fseekp, this`feobp, this`told, fbuf
      ensures Valid() && stored == (|line| <= BUFSIZ - old(feobp) % BUFSIZ)
      ensures stored ==> fseekp == old(fseekp) && feobp == fseekp + |line|
      ensures !stored ==> fseekp == feobp == |fbuf| * BUFSIZ
      ensures Kept(old(told), old(fseekp), line + rest, told, fseekp, (if stored then [] else line) + rest, Exact())
    {
      if |line| > BUFSIZ - feobp % BUFSIZ {
        FreshBuffer();
        BlockSkipped(old(told), feobp - old(feobp), line + rest);
        return false;
      }
      Append(line);
      LineStored(old(told), fseekp, line, rest, Exact());
      assert [] + rest == rest;
      return true;
    }

    /** One turn at the descriptor: a line is stored, or held over, or there is none. */
    method Feed(held: seq<byte>) returns (got: bool, over: seq<byte>)
      requires Valid() && fseekp == feobp < |fbuf| * BUFSIZ
      requires held != [] ==> !Exact() && feobp % BUFSIZ == 0 && |held| <= BUFSIZ
      modifies this`rest, this`fseekp, this`feobp, this`told, fbuf
      ensures Valid() && Kept(old(told), old(fseekp), held + old(rest), told, fseekp, over + rest, Exact())
      ensures !got ==> fseekp == feobp && over == [] && rest == []
      ensures got && over == [] ==> fseekp < feobp && fseekp == old(fseekp)
      ensures over != [] ==> got && held == [] && !Exact() && |over| <= BUFSIZ && fseekp == feobp == |fbuf| * BUFSIZ
    {
      var line := NextLine(held);
      if line == [] {
        NothingChanged(told, fseekp, rest, Exact());
        got, over := false, [];
        assert over + rest == held + old(rest) == rest;
        return;
      }
      var stored := Store(line);
      return true, if stored then [] else line;
    }

    /** How much there is still to do before a byte can be read. */
    ghost function ToDo(held: seq<byte>): nat
      reads this
    {
      (if held == [] then 2 else 0) + (if fseekp >= feobp then 1 else 0) + (if fseekp / BUFSIZ >= |fbuf| then 1 else 0)
    }

    /** One pass from the label again; `over` is a line held over for the next pass. */
    method Turn(held: seq<byte>) returns (again: bool, ready: bool, over: seq<byte>)
      requires Valid() && (held != [] ==> !Exact() && fseekp == feobp == |fbuf| * BUFSIZ && |held| <= BUFSIZ)
      modifies this, fbuf
      ensures Valid() && fresh(set b | b in fbuf && b !in old(fbuf))
      ensures Kept(old(told), old(fseekp), held + old(rest), told, fseekp, over + rest, Exact())
      ensures over != [] ==> !Exact() && fseekp == feobp == |fbuf| * BUFSIZ && |over| <= BUFSIZ
      ensures again ==> ToDo(over) < old(ToDo(held))
      ensures !again ==> over == [] && if ready then fseekp < feobp else fseekp == feobp && rest == []
    {
      over, ready := held, true;
      NothingChanged(told, fseekp, held + rest, Exact());
      if fseekp / BUFSIZ >= |fbuf| {
        AddBlock();
        if !intty {
          return true, true, over;
        }
      }
      if fseekp >= feobp {
        ready, over := Feed(held);
        return ready && (over != [] || (filec && !intty)), ready, over;
      }
      again := false;
    }

    /** Buffers input until fseekp is inside the buffer; false at the end of the input. */
    method Ready() returns (ready: bool)
      requires Valid()
      modifies this, fbuf
      ensures Valid() && fresh(set b | b in fbuf && b !in old(fbuf))
      ensures Kept(old(told), old(fseekp), old(rest), told, fseekp, rest, Exact())
      ensures if ready then fseekp < feobp else fseekp == feobp && rest == []
    {
      var again, held := true, [];       // held: a line that did not fit behind feobp
      ready := true;
      NothingChanged(told, fseekp, rest, Exact());
      assert held + rest == rest;
      while again
        invariant Valid() && fresh(set b | b in fbuf && b !in old(fbuf))
        invariant Kept(old(told), old(fseekp), old(rest), told, fseekp, held + rest, Exact())
        invariant held != [] ==> !Exact() && fseekp == feobp == |fbuf| * BUFSIZ && |held| <= BUFSIZ
        invariant !again ==> held == [] && if ready then fseekp < feobp else fseekp == feobp && rest == []
        decreases again, ToDo(held)
      {
        ghost var t, p, r := told, fseekp, held + rest;
        again, ready, held := Turn(held);
        KeptTwice(old(told), old(fseekp), old(rest), t, p, r, told, fseekp, held + rest, Exact());
      }
      assert held + rest == rest;
    }

    method Bgetc() returns (c: int)
      requires Valid()
      modifies this, fbuf
      ensures Valid() && fresh(set b | b in fbuf && b !in old(fbuf))
      ensures c == -1 ==> old(Ahead()) == [] && Ahead() == []
      ensures c != -1 ==> 0 <= c < 256 && old(Ahead()) == [c as byte] + Ahead()
      ensures Grown(old(told), old(rest), told, rest, Exact())
    {
      var ready := Ready();
      if !ready {
        return -1;
      }
      c := fbuf[fseekp / BUFSIZ][fseekp % BUFSIZ] as int;
      assert told[fseekp..] == [told[fseekp]] + told[fseekp + 1..];
      fseekp := fseekp + 1;
    }

    /**
      bseek to a position that btell gave when the buffer held t0 and r0 was still outside:
      what was ahead then is ahead again.
     */
    method Bseek(to: nat, ghost t0: seq<byte>, ghost r0: seq<byte>)
      requires Valid() && to <= |t0| && Grown(t0, r0, told, rest, Exact())
      modifies this`fseekp
      ensures Valid() && fseekp == to
      ensures Visible(Ahead()) == Visible(t0[to..] + r0) && (Exact() ==> Ahead() == t0[to..] + r0)
    {
      GrownFrom(t0, r0, told, rest, Exact(), to);
      fseekp := to;
    }

    /** Drops the blocks before the one last read from, unless a loop may go back to them. */
    method Bfree(whyles: bool)
      requires Valid()
      modifies this`fbuf, this`fseekp, this`feobp, this`told
      ensures Valid() && Ahead() == old(Ahead())
      ensures |fbuf| <= |old(fbuf)| && fbuf == old(fbuf)[|old(fbuf)| - |fbuf|..]
      ensures fseekp <= old(fseekp) && told == old(told)[old(fseekp) - fseekp..]
      ensures if whyles then fseekp == old(fseekp) else fseekp <= BUFSIZ
    {
      if whyles {
        return;
      }
      var sb := if fseekp == 0 then 0 else (fseekp - 1) / BUFSIZ;
      if sb > 0 {
        fbuf := fbuf[sb..];
        told := told[BUFSIZ * sb..];
        fseekp := fseekp - BUFSIZ * sb;
        feobp := feobp - BUFSIZ * sb;
      }
    }

    /** The loop of readc over bgetc. */
    method Readc() returns (c: int)
      requires Valid()
      modifies this, fbuf
      ensures Valid() && fresh(set b | b in fbuf && b !in old(fbuf))
      ensures c == -1 ==> Visible(old(Ahead())) == [] && Ahead() == []
      ensures c != -1 ==> 0 < c < 256 && Visible(old(Ahead())) == [c as byte] + Visible(Ahead())
      ensures Grown(old(told), old(rest), told, rest, Exact())
    {
      c := Bgetc();
      while c == 0
        invariant Valid() && fresh(set b | b in fbuf && b !in old(fbuf))
        invariant -1 <= c < 256
        invariant c == -1 ==> Visible(old(Ahead())) == [] && Ahead() == []
        invariant c != -1 ==> Visible(old(Ahead())) == Visible([c as byte] + Ahead())
        invariant Grown(old(told), old(rest), told, rest, Exact())
        decreases |Ahead()|, c + 1
      {
        ghost var t, r := told, rest;
        VisibleFirst(0, Ahead());
        c := Bgetc();
        GrownTwice(old(told), old(rest), t, r, told, rest, Exact());
      }
      if c != -1 {
        VisibleFirst(c as byte, Ahead());
      }
    }

    /** Reads n characters, or fewer at the end of the input. */
    method Pass(n: nat) returns (out: seq<byte>)
      requires Valid()
      modifies this, fbuf
      ensures Valid() && fresh(set b | b in fbuf && b !in old(fbuf))
      ensures out == FirstOf(Visible(old(Ahead())), n)
      ensures Grown(old(told), old(rest), told, rest, Exact())
    {
      out := [];
      NothingChanged(told, fseekp, rest, Exact());
      while |out| < n
        invariant Valid() && fresh(set b | b in fbuf && b !in old(fbuf)) && |out| <= n
        invariant Visible(old(Ahead())) == out + Visible(Ahead())
        invariant Grown(old(told), old(rest), told, rest, Exact())
      {
        ghost var t, r := told, rest;
        var c := Readc();
        GrownTwice(old(told), old(rest), t, r, told, rest, Exact());
        if c == -1 {
          FirstOfSplit(Visible(old(Ahead())), out, [], n);
          return;
        }
        Regroup(out, c as byte, Visible(Ahead()));
        out := out + [c as byte];
      }
      FirstOfSplit(Visible(old(Ahead())), out, Visible(Ahead()), n);
    }

    /** The body of a loop reads the same whichever time round it is. */
    method PassTwice(n: nat) returns (first: seq<byte>, second: seq<byte>)
      requires Valid()
      modifies this, fbuf
      ensures Valid() && first == second == FirstOf(Visible(old(Ahead())), n)
    {
      var top := fseekp;                 // btell
      first := Pass(n);
      Bseek(top, old(told), old(rest));
      second := Pass(n);
    }
  }
}
