/**
  The path canonicaliser of the C shell (usr/src/bin/csh/dir.c).

  A path is read as a stack of components.  `Resolve` is that reading: it walks the
  components of a text from a given directory, and is defined without reference to the
  in-place rewriting.  `CanonText` is the text the rewriting is meant to leave behind.
 */
module Paths {
  const NUL: char := '\0'

  // ----- Directories as stacks of components

  /** A name that can stand between two slashes of a path. */
  predicate IsName(c: string) {
    c != "" && '/' !in c && NUL !in c
  }

  predicate AreNames(st: seq<string>) {
    forall i :: 0 <= i < |st| ==> IsName(st[i])
  }

  /** A name that is neither "." nor "..". */
  predicate IsPlain(c: string) {
    IsName(c) && c != "." && c != ".."
  }

  predicate ArePlain(st: seq<string>) {
    forall i :: 0 <= i < |st| ==> IsPlain(st[i])
  }

  /** The text of a stack, each component after its own slash; the root is the empty text. */
  function Render(st: seq<string>): string {
    if st == [] then "" else Render(st[..|st| - 1]) + "/" + st[|st| - 1]
  }

  /** Index of the first slash of `t` at or after `i`, or the length of `t`. */
  function NextSlash(t: string, i: nat): (n: nat)
    requires i <= |t|
    ensures i <= n <= |t| && '/' !in t[i..n]
    ensures n < |t| ==> t[n] == '/'
    decreases |t| - i
  {
    if i == |t| || t[i] == '/' then i
    else
      var n := NextSlash(t, i + 1);
      assert t[i..n] == [t[i]] + t[i + 1..n];
      n
  }

  /** What can follow a rendered stack: nothing, or a text that opens with a slash. */
  predicate IsTail(t: string) {
    t == "" || t[0] == '/'
  }

  /** The components of a tail, empty ones included. */
  function Split(t: string): (cs: seq<string>)
    requires IsTail(t)
    ensures (cs == []) == (t == "")
    decreases |t|
  {
    if t == "" then [] else
      var n := NextSlash(t, 1);
      [t[1..n]] + Split(t[n..])
  }

  /** One step of a walk: ".." leaves the directory, except at the root. */
  function Visit(st: seq<string>, c: string): seq<string> {
    if c == "" || c == "." then st
    else if c == ".." then (if st == [] then [] else st[..|st| - 1])
    else st + [c]
  }

  function Resolve(st: seq<string>, cs: seq<string>): seq<string>
    decreases |cs|
  {
    if cs == [] then st else Resolve(Visit(st, cs[0]), cs[1..])
  }

  /** The directory that the text `t` names when read from the directory `st`. */
  function Directory(st: seq<string>, t: string): seq<string>
    requires IsTail(t)
  {
    Resolve(st, Split(t))
  }

  /** The code leaves a last "." alone when it stands directly over the root. */
  predicate DotOverRoot(st: seq<string>, t: string)
    requires IsTail(t)
  {
    t != "" && Directory(st, t) == [] && Split(t)[|Split(t)| - 1] == "."
  }

  /** The text that canonicalising `Render(st) + t` from the tail `t` on leaves. */
  function CanonText(st: seq<string>, t: string): string
    requires IsTail(t)
  {
    if Directory(st, t) != [] then Render(Directory(st, t))
    else if t == "" then ""
    else if DotOverRoot(st, t) then "/."
    else "/"
  }

  // ----- How one pass of the loop changes the reading

  lemma SplitStep(st: seq<string>, t: string, n: nat)
    requires IsTail(t) && t != "" && n == NextSlash(t, 1)
    ensures IsTail(t[n..]) && Split(t) == [t[1..n]] + Split(t[n..])
    ensures Directory(st, t) == Directory(Visit(st, t[1..n]), t[n..])
  {
    assert Split(t)[1..] == Split(t[n..]);
  }

  lemma CanonStep(st: seq<string>, t: string, n: nat)
    requires IsTail(t) && t != "" && n == NextSlash(t, 1) < |t|
    ensures IsTail(t[n..]) && CanonText(st, t) == CanonText(Visit(st, t[1..n]), t[n..])
  {
    SplitStep(st, t, n);
    var cs, rest := Split(t), Split(t[n..]);
    assert cs[|cs| - 1] == rest[|rest| - 1];
  }

  /** Extra slashes are empty components, which name nothing. */
  lemma FlushSlash(st: seq<string>, t: string)
    requires |t| >= 2 && t[0] == '/' && t[1] == '/'
    ensures CanonText(st, t) == CanonText(st, t[1..])
  {
    CanonStep(st, t, 1);
  }

  lemma {:induction false} FlushSlashes(st: seq<string>, t: string, k: nat)
    requires 1 <= k <= |t| && forall i :: 0 <= i < k ==> t[i] == '/'
    ensures CanonText(st, t) == CanonText(st, t[k - 1..])
    decreases k
  {
    if k > 1 {
      FlushSlash(st, t);
      FlushSlashes(st, t[1..], k - 1);
      assert t[1..][k - 2..] == t[k - 1..];
    } else {
      assert t[0..] == t;
    }
  }

  lemma NextSlashAt(t: string, i: nat, n: nat)
    requires i <= n <= |t| && '/' !in t[i..n] && (n == |t| || t[n] == '/')
    ensures NextSlash(t, i) == n
    decreases n - i
  {
    if i < n {
      assert t[i] in t[i..n];
      assert t[i + 1..n] == t[i..n][1..];
      NextSlashAt(t, i + 1, n);
    }
  }

  /** Where the last component of a rendered stack starts. */
  lemma RenderTop(st: seq<string>, s: string)
    requires AreNames(st) && st != [] && s == Render(st)
    ensures var below := |Render(st[..|st| - 1])|;
            && below < |s| && s[..below] == Render(st[..|st| - 1])
            && s[below] == '/' && '/' !in s[below + 1..]
            && s[below + 1..] == st[|st| - 1]
  {
    assert IsName(st[|st| - 1]);
  }

  lemma {:induction false} RenderShape(st: seq<string>)
    requires AreNames(st)
    ensures (Render(st) == "") == (st == [])
    ensures IsTail(Render(st)) && NUL !in Render(st)
    ensures |st| > 0 ==> |Render(st)| >= 2
  {
    if st != [] {
      RenderShape(st[..|st| - 1]);
      assert IsName(st[|st| - 1]);
    }
  }

  // ----- The rewriting itself

  /** `buf` holds the string `s`, closed by a NUL. */
  ghost predicate Holds(buf: array<char>, s: string)
    reads buf
  {
    |s| < buf.Length && buf[..|s|] == s && buf[|s|] == NUL && NUL !in s
  }

  /** `buf` holds `s`, but for a NUL written over the character at `p`. */
  ghost predicate HoldsCut(buf: array<char>, s: string, p: int)
    reads buf
  {
    0 <= p <= |s| < buf.Length && NUL !in s && buf[..|s| + 1] == (s + [NUL])[p := NUL]
  }

  /** The copy loop `for (p1 = dst, p2 = src; *p1++ = *p2++;)`, which moves a tail down over a cut. */
  method CopyDown(buf: array<char>, dst: nat, src: nat, ghost s: string, ghost cut: nat)
    requires HoldsCut(buf, s, cut) && dst <= src <= |s| && (dst <= cut < src || cut == |s|)
    modifies buf
    ensures Holds(buf, s[..dst] + s[src..])
  {
    ghost var z := s + [NUL];
    var p1, p2 := dst, src;
    assert forall i :: src <= i <= |s| ==> buf[i] == z[i];
    while buf[p2] != NUL
      invariant p1 - dst == p2 - src && dst <= p1 <= p2 <= |s|
      invariant buf[..p1] == s[..dst] + s[src..p2]
      invariant forall i :: p2 <= i <= |s| ==> buf[i] == z[i]
      decreases |s| - p2
    {
      buf[p1] := buf[p2];
      p1, p2 := p1 + 1, p2 + 1;
    }
    assert s[src..p2] == s[src..];
    buf[p1] := NUL;
  }

  /** `*sp = 0` on a text cut at `p`. */
  method Truncate(buf: array<char>, sp: nat, ghost s: string, ghost p: nat)
    requires HoldsCut(buf, s, p) && sp <= p
    modifies buf
    ensures Holds(buf, s[..sp]) && p < buf.Length && buf[p] == NUL
  {
    assert buf[p] == NUL;
    buf[sp] := NUL;
  }

  /** `*p = '/'` undoes a cut; a cut at the end of the text is none. */
  method Restore(buf: array<char>, p: nat, slash: bool, ghost s: string)
    requires HoldsCut(buf, s, p) && slash == (p < |s|) && (slash ==> s[p] == '/')
    modifies buf
    ensures Holds(buf, s)
  {
    if slash {
      buf[p] := '/';
    }
    assert buf[..|s| + 1] == s + [NUL];
  }

  /** The search `while (*--sp != '/')`. */
  method BackToSlash(buf: array<char>, sp0: nat, ghost s: string, ghost p: nat, ghost at: nat) returns (sp: nat)
    requires HoldsCut(buf, s, p) && at < sp0 <= p && s[at] == '/' && '/' !in s[at + 1..sp0]
    ensures sp == at
  {
    sp := sp0 - 1;
    while buf[sp] != '/'
      invariant at <= sp < sp0
      decreases sp
    {
      sp := sp - 1;
    }
  }

  /** Index of the first character of `s` at or after `i` that is not a slash. */
  function PastSlashes(s: string, i: nat): (k: nat)
    requires i <= |s|
    ensures i <= k <= |s| && forall j :: i <= j < k ==> s[j] == '/'
    ensures k < |s| ==> s[k] != '/'
    decreases |s| - i
  {
    if i == |s| || s[i] != '/' then i else PastSlashes(s, i + 1)
  }

  /** Flush the slashes that follow the one at `sp0`. */
  method Flush(buf: array<char>, sp0: nat, ghost s: string) returns (sp: nat)
    requires Holds(buf, s) && sp0 < |s|
    modifies buf
    ensures sp == sp0 + 1 && Holds(buf, s[..sp] + s[PastSlashes(s, sp)..])
  {
    ghost var k := PastSlashes(s, sp0 + 1);
    var p := sp0 + 1;
    while buf[p] == '/'
      invariant sp0 < p <= k
      decreases |s| - p
    {
      p := p + 1;
    }
    sp := sp0 + 1;
    if p != sp {
      CopyDown(buf, sp, p, s, |s|);
    } else {
      assert s[..sp] + s[sp..] == s;
    }
  }

  /** Find the next slash from `sp` on, or the end of the path, and cut the text there. */
  method CutComponent(buf: array<char>, sp: nat, ghost s: string) returns (p: nat, slash: bool)
    requires Holds(buf, s) && sp <= |s| && (sp < |s| ==> s[sp] != '/')
    modifies buf
    ensures HoldsCut(buf, s, p) && p == NextSlash(s, sp) && slash == (p < |s|)
  {
    ghost var n := NextSlash(s, sp);
    p := sp;
    slash := false;
    while buf[p] != NUL
      invariant sp <= p <= n && Holds(buf, s) && (p < |s| ==> s[p] != '/')
      decreases n - p
    {
      assert s[p] != '/' && p < n;
      p := p + 1;
      if buf[p] == '/' {
        slash := true;
        buf[p] := NUL;
        break;
      }
    }
  }

  /** The text left when the last component `c` of a path has led to the directory `r`. */
  function Closed(r: seq<string>, c: string): string {
    if r != [] then Render(r) else if c == "." then "/." else "/"
  }

  /** After a pass over the component `c`: `rest` is next, or the text is final and `p` ends the loop. */
  ghost predicate Advanced(buf: array<char>, p: int, r: seq<string>, c: string, rest: string)
    reads buf
  {
    if rest != "" then p == |Render(r)| && Holds(buf, Render(r) + rest)
    else 0 <= p < buf.Length && buf[p] == NUL && Holds(buf, Closed(r, c))
  }

  /** The next component is `c`, which starts at `sp` and is cut off by a NUL at `p`. */
  ghost predicate AtComponent(buf: array<char>, sp: int, p: int, slash: bool,
                              st: seq<string>, c: string, rest: string)
    reads buf
  {
    && AreNames(st) && IsTail(rest) && slash == (rest != "")
    && '/' !in c && (c == "" ==> !slash)
    && sp == |Render(st)| + 1 && p == sp + |c| && HoldsCut(buf, Render(st) + "/" + c + rest, p)
  }

  /** An empty component ends the path; the slash before it goes, except at the root. */
  method DropSlash(buf: array<char>, sp0: nat, p: nat, ghost st: seq<string>)
    requires AtComponent(buf, sp0, p, false, st, "", "")
    modifies buf
    ensures Advanced(buf, p, st, "", "")
  {
    ghost var s := Render(st) + "/" + "" + "";
    RenderShape(st);
    var sp := sp0 - 1;
    if sp != 0 {
      Truncate(buf, sp, s, p);
      assert s[..sp] == Render(st);
    } else {
      assert s == "/" == buf[..1];
    }
  }

  /** A "." component: closed up, or dropped at the end unless it stands over the root. */
  method DropDot(buf: array<char>, sp0: nat, p0: nat, slash: bool, ghost st: seq<string>, ghost rest: string)
      returns (p: nat)
    requires AtComponent(buf, sp0, p0, slash, st, ".", rest)
    modifies buf
    ensures Advanced(buf, p, st, ".", rest)
  {
    ghost var s := Render(st) + "/" + "." + rest;
    p := p0;
    if slash {
      CopyDown(buf, sp0, p + 1, s, p);
      assert s[..sp0] + s[p + 1..] == Render(st) + rest;
      p := sp0 - 1;
    } else {
      RenderShape(st);
      var sp := sp0 - 1;
      if sp != 0 {
        Truncate(buf, sp, s, p);
        assert s[..sp] == Render(st);
      } else {
        assert s == "/." == buf[..2];
      }
    }
  }

  /** Back from a ".." to the slash before the component it cancels. */
  method BackUp(buf: array<char>, sp0: nat, p: nat, slash: bool, ghost st: seq<string>, ghost rest: string)
      returns (sp: nat)
    requires AtComponent(buf, sp0, p, slash, st, "..", rest)
    ensures var s := Render(st) + "/" + ".." + rest;
            sp == |Render(Visit(st, ".."))| <= sp0 - 1 && s[..sp] == Render(Visit(st, "..")) && s[sp] == '/'
  {
    ghost var s := Render(st) + "/" + ".." + rest;
    RenderShape(st);
    sp := sp0 - 1;
    if sp != 0 {
      RenderTop(st, Render(st));
      assert Render(st) == s[..sp];
      sp := BackToSlash(buf, sp, s, p, |Render(st[..|st| - 1])|);
    }
  }

  lemma CloseUp(s: string, head: string, rest: string, p: nat)
    requires |head| < |s| && s[..|head|] == head && s[|head|] == '/'
    requires p < |s| && s[p..] == rest && rest[0] == '/'
    ensures s[..|head| + 1] + s[p + 1..] == head + rest
  {
    assert s[..|head| + 1] == head + ['/'] && s[p + 1..] == rest[1..];
    assert rest == ['/'] + rest[1..];
  }

  method MoveRest(buf: array<char>, sp: nat, p: nat, ghost s: string, ghost head: string, ghost rest: string)
    requires HoldsCut(buf, s, p) && sp == |head| < p < |s| && s[..sp] == head && s[sp] == '/'
    requires s[p..] == rest && rest[0] == '/'
    modifies buf
    ensures Holds(buf, head + rest)
  {
    CopyDown(buf, sp + 1, p + 1, s, p);
    CloseUp(s, head, rest, p);
  }

  /** A ".." component: the component before it goes too, and at the root there is none. */
  method DropParent(buf: array<char>, sp0: nat, p0: nat, slash: bool, ghost st: seq<string>, ghost rest: string)
      returns (p: nat)
    requires AtComponent(buf, sp0, p0, slash, st, "..", rest)
    modifies buf
    ensures Advanced(buf, p, Visit(st, ".."), "..", rest)
  {
    ghost var s := Render(st) + "/" + ".." + rest;
    ghost var up := Visit(st, "..");
    var sp := BackUp(buf, sp0, p0, slash, st, rest);
    RenderShape(up);
    p := p0;
    if slash {
      assert s[p..] == rest;
      MoveRest(buf, sp, p, s, Render(up), rest);
      p := sp;
    } else {
      if sp == 0 {
        sp := sp + 1;
      }
      Truncate(buf, sp, s, p);
      assert s[..sp] == Closed(up, "..");
    }
  }

  /** An ordinary name stays. */
  lemma RenderOneMore(st: seq<string>, c: string)
    ensures Render(st + [c]) == Render(st) + "/" + c
  {
    assert (st + [c])[..|st|] == st;
  }

  method KeepName(buf: array<char>, sp: nat, p: nat, slash: bool,
                  ghost st: seq<string>, ghost c: string, ghost rest: string)
    requires AtComponent(buf, sp, p, slash, st, c, rest) && c != "" && c != "." && c != ".."
    modifies buf
    ensures Advanced(buf, p, Visit(st, c), c, rest)
  {
    Restore(buf, p, slash, Render(st) + "/" + c + rest);
    RenderOneMore(st, c);
  }

  /** What the comparisons with "." and ".." at `sp` say about the component that ends at `p`. */
  lemma ReadsComponent(buf: array<char>, s: string, sp: nat, p: nat)
    requires HoldsCut(buf, s, p) && sp <= p
    ensures (buf[sp] == NUL) == (s[sp..p] == "")
    ensures buf[sp] == '.' ==> (buf[sp + 1] == NUL) == (s[sp..p] == ".")
    ensures buf[sp] == '.' && buf[sp + 1] == '.' ==> (buf[sp + 2] == NUL) == (s[sp..p] == "..")
    ensures s[sp..p] == "." ==> buf[sp] == '.'
    ensures s[sp..p] == ".." ==> buf[sp] == '.' && buf[sp + 1] == '.'
  {
    assert forall i :: sp <= i < p ==> buf[i] == s[i] && buf[i] == s[sp..p][i - sp];
    assert buf[p] == NUL;
  }

  /** The branches of one pass over the component `c`. */
  method Pass(buf: array<char>, sp: nat, p0: nat, slash: bool,
              ghost st: seq<string>, ghost c: string, ghost rest: string)
      returns (p: nat)
    requires AtComponent(buf, sp, p0, slash, st, c, rest)
    modifies buf
    ensures Advanced(buf, p, Visit(st, c), c, rest)
  {
    assert (Render(st) + "/" + c + rest)[sp..p0] == c;
    ReadsComponent(buf, Render(st) + "/" + c + rest, sp, p0);
    p := p0;
    if buf[sp] == NUL {
      DropSlash(buf, sp, p, st);
    } else if buf[sp] == '.' && buf[sp + 1] == NUL {
      p := DropDot(buf, sp, p, slash, st, rest);
    } else if buf[sp] == '.' && buf[sp + 1] == '.' && buf[sp + 2] == NUL {
      p := DropParent(buf, sp, p, slash, st, rest);
    } else {
      KeepName(buf, sp, p, slash, st, c, rest);
    }
  }

  /** Scans from inside a tail do not see what stands before it. */
  lemma {:induction false} ScanShift(pre: string, t: string, i: nat)
    requires i <= |t|
    ensures PastSlashes(pre + t, |pre| + i) == |pre| + PastSlashes(t, i)
    ensures NextSlash(pre + t, |pre| + i) == |pre| + NextSlash(t, i)
    decreases |t| - i
  {
    if i < |t| {
      assert (pre + t)[|pre| + i] == t[i];
      ScanShift(pre, t, i + 1);
    }
  }

  /** The tail left when its opening slashes are flushed to one. */
  function Flushed(t: string): (t': string)
    requires IsTail(t) && t != ""
    ensures IsTail(t') && t' != "" && |t'| <= |t| && (|t'| > 1 ==> t'[1] != '/')
  {
    t[PastSlashes(t, 1) - 1..]
  }

  lemma CloseGap(pre: string, t: string, s: string, k: nat, j: nat)
    requires 1 <= k <= |t| && t[0] == t[k - 1] && s == pre + t && j == |pre| + k
    ensures s[..|pre| + 1] + s[j..] == pre + t[k - 1..]
  {
    assert s[j..] == t[k..] && s[..|pre| + 1] == pre + [t[0]];
    assert t[k - 1..] == [t[k - 1]] + t[k..];
  }

  /** A pass over one component keeps the goal: the next tail has it, or the text is it. */
  lemma AfterPass(st: seq<string>, t: string)
    requires IsTail(t) && t != ""
    ensures IsTail(t[NextSlash(t, 1)..])
    ensures var n := NextSlash(t, 1);
            var c, r, rest := t[1..n], Visit(st, t[1..n]), t[n..];
            CanonText(st, t) == if rest != "" then CanonText(r, rest) else Closed(r, c)
  {
    var n := NextSlash(t, 1);
    SplitStep(st, t, n);
    if n < |t| {
      CanonStep(st, t, n);
    }
  }

  lemma OpenOut(pre: string, t: string, n: nat)
    requires 1 <= n <= |t| && t[0] == '/'
    ensures pre + t == pre + "/" + t[1..n] + t[n..]
    ensures NUL !in pre + t ==> NUL !in t[1..n]
  {
    assert t == "/" + t[1..n] + t[n..];
    assert forall ch :: ch in t[1..n] ==> ch in t && ch in pre + t;
  }

  lemma PastInTail(pre: string, t: string, s: string)
    requires t != "" && s == pre + t
    ensures PastSlashes(s, |pre| + 1) == |pre| + PastSlashes(t, 1)
  {
    ScanShift(pre, t, 1);
  }

  /** What flushing the slashes at the start of the tail leaves of the whole text. */
  lemma FlushedText(pre: string, t: string, s: string)
    requires IsTail(t) && t != "" && s == pre + t
    ensures |pre| < |s| && s[..|pre| + 1] + s[PastSlashes(s, |pre| + 1)..] == pre + Flushed(t)
  {
    PastInTail(pre, t, s);
    CloseGap(pre, t, s, PastSlashes(t, 1), PastSlashes(s, |pre| + 1));
  }

  lemma ScanTail(pre: string, u: string, s: string)
    requires u != "" && (|u| > 1 ==> u[1] != '/') && s == pre + u
    ensures |pre| + 1 <= |s| && (|pre| + 1 < |s| ==> s[|pre| + 1] != '/')
    ensures NextSlash(s, |pre| + 1) == |pre| + NextSlash(u, 1)
  {
    ScanShift(pre, u, 1);
  }

  /** Flush extra slashes, then find the next slash or the end of the path. */
  method NextComponent(buf: array<char>, p0: nat, ghost pre: string, ghost t: string)
      returns (sp: nat, p: nat, slash: bool)
    requires IsTail(t) && t != "" && p0 == |pre| && Holds(buf, pre + t)
    modifies buf
    ensures sp == p0 + 1 && p == p0 + NextSlash(Flushed(t), 1) && slash == (p < p0 + |Flushed(t)|)
    ensures HoldsCut(buf, pre + Flushed(t), p)
  {
    ghost var s, s' := pre + t, pre + Flushed(t);
    FlushedText(pre, t, s);
    ScanTail(pre, Flushed(t), s');
    sp := Flush(buf, p0, s);
    p, slash := CutComponent(buf, sp, s');
  }

  lemma VisitNames(st: seq<string>, c: string)
    requires AreNames(st) && NUL !in c && '/' !in c
    ensures AreNames(Visit(st, c))
  {
  }

  /** The first component of a path. */
  function FirstOf(t: string): string
    requires IsTail(t) && t != ""
  {
    Flushed(t)[1..NextSlash(Flushed(t), 1)]
  }

  /** What stands behind it. */
  function Behind(t: string): string
    requires IsTail(t) && t != ""
  {
    Flushed(t)[NextSlash(Flushed(t), 1)..]
  }

  lemma OneComponent(st: seq<string>, t: string)
    requires AreNames(st) && IsTail(t) && t != "" && NUL !in Render(st) + t
    ensures var c, rest, r := FirstOf(t), Behind(t), Visit(st, FirstOf(t));
            && IsTail(rest) && '/' !in c && (c == "" ==> rest == "") && AreNames(r) && |rest| < |t|
            && NextSlash(Flushed(t), 1) == 1 + |c| && |Flushed(t)| == 1 + |c| + |rest|
            && Render(st) + Flushed(t) == Render(st) + "/" + c + rest
            && CanonText(st, t) == if rest != "" then CanonText(r, rest) else Closed(r, c)
  {
    var f := Flushed(t);
    FlushSlashes(st, t, PastSlashes(t, 1));
    AfterPass(st, f);
    OpenOut(Render(st), f, NextSlash(f, 1));
    assert forall i :: 0 <= i < |f| ==> f[i] in t;
    assert NUL !in t;
    VisitNames(st, FirstOf(t));
  }

  /**
    dcanon, with symbolic links ignored and no home directory set: `buf` holds an absolute
    path whose first `p0` characters are already a rendered stack.  Every pass leaves a
    shorter tail to read.
   */
  method Dcanon(buf: array<char>, p0: nat, ghost st0: seq<string>, ghost t0: string)
    requires AreNames(st0) && IsTail(t0) && p0 == |Render(st0)|
    requires Holds(buf, Render(st0) + t0)
    modifies buf
    ensures Holds(buf, CanonText(st0, t0))
  {
    ghost var st, t, done := st0, t0, false;
    assert Render(st) + "" == Render(st);
    var p := p0;
    while buf[p] != NUL
      invariant 0 <= p < buf.Length
      invariant done ==> buf[p] == NUL && Holds(buf, CanonText(st0, t0))
      invariant !done ==> AreNames(st) && IsTail(t)
      invariant !done ==> p == |Render(st)| && Holds(buf, Render(st) + t)
      invariant !done ==> CanonText(st, t) == CanonText(st0, t0)
      decreases if done then 0 else |t| + 1
    {
      var sp, slash;
      OneComponent(st, t);
      ghost var c, rest := FirstOf(t), Behind(t);
      sp, p, slash := NextComponent(buf, p, Render(st), t);
      p := Pass(buf, sp, p, slash, st, c, rest);
      st, t, done := Visit(st, c), rest, rest == "";
    }
  }

  // ----- What the canonical text means

  lemma SplitCons(c: string, t: string)
    requires '/' !in c && IsTail(t)
    ensures Split("/" + c + t) == [c] + Split(t)
  {
    var u := "/" + c + t;
    assert u[1..|c| + 1] == c && u[|c| + 1..] == t;
    NextSlashAt(u, 1, |c| + 1);
  }

  lemma ComponentStep(st: seq<string>, c: string, t: string)
    requires '/' !in c && IsTail(t)
    ensures Directory(st, "/" + c + t) == Directory(Visit(st, c), t)
    ensures t != "" ==> CanonText(st, "/" + c + t) == CanonText(Visit(st, c), t)
  {
    var u := "/" + c + t;
    assert u[1..|c| + 1] == c && u[|c| + 1..] == t;
    NextSlashAt(u, 1, |c| + 1);
    SplitStep(st, u, |c| + 1);
    if t != "" {
      CanonStep(st, u, |c| + 1);
    }
  }

  lemma RenderSnoc(st: seq<string>, t: string)
    requires st != []
    ensures Render(st) + t == Render(st[..|st| - 1]) + ("/" + st[|st| - 1] + t)
  {
    Regroup(Render(st[..|st| - 1]), "/", st[|st| - 1], t);
  }

  lemma Regroup(a: string, b: string, c: string, d: string)
    ensures a + b + c + d == a + (b + c + d) && a + b + c + d == a + b + (c + d)
  {
  }

  /** The components of a rendered stack are the stack. */
  lemma SnocConcat(st: seq<string>, cs: seq<string>)
    requires st != []
    ensures st[..|st| - 1] + ([st[|st| - 1]] + cs) == st + cs
  {
  }

  lemma {:induction false} SplitRender(st: seq<string>, t: string)
    requires AreNames(st) && IsTail(t)
    ensures IsTail(Render(st) + t) && Split(Render(st) + t) == st + Split(t)
    decreases |st|
  {
    RenderShape(st);
    if st != [] {
      var below, c := st[..|st| - 1], st[|st| - 1];
      assert IsName(c);
      SplitCons(c, t);
      SplitRender(below, "/" + c + t);
      RenderSnoc(st, t);
      SnocConcat(st, Split(t));
    } else {
      assert Render(st) + t == t;
    }
  }

  lemma {:induction false} ResolveConcat(st: seq<string>, a: seq<string>, b: seq<string>)
    ensures Resolve(st, a + b) == Resolve(Resolve(st, a), b)
    decreases |a|
  {
    if a == [] {
      assert a + b == b;
    } else {
      assert (a + b)[1..] == a[1..] + b;
      ResolveConcat(Visit(st, a[0]), a[1..], b);
    }
  }

  /** Plain components only go down. */
  lemma {:induction false} ResolvePlain(st: seq<string>, cs: seq<string>)
    requires ArePlain(cs)
    ensures Resolve(st, cs) == st + cs
    decreases |cs|
  {
    if cs != [] {
      assert IsPlain(cs[0]);
      ResolvePlain(st + [cs[0]], cs[1..]);
      assert st + [cs[0]] + cs[1..] == st + cs;
    }
  }

  /** A walk from plain names over a NUL-free text stays on plain names. */
  lemma {:induction false} ResolveStaysPlain(st: seq<string>, cs: seq<string>)
    requires ArePlain(st) && forall i :: 0 <= i < |cs| ==> '/' !in cs[i] && NUL !in cs[i]
    ensures ArePlain(Resolve(st, cs))
    decreases |cs|
  {
    if cs != [] {
      assert ArePlain(Visit(st, cs[0]));
      ResolveStaysPlain(Visit(st, cs[0]), cs[1..]);
    }
  }

  lemma {:induction false} SplitClean(t: string)
    requires IsTail(t) && NUL !in t
    ensures forall i :: 0 <= i < |Split(t)| ==> '/' !in Split(t)[i] && NUL !in Split(t)[i]
    decreases |t|
  {
    if t != "" {
      var n := NextSlash(t, 1);
      assert forall ch :: ch in t[1..n] ==> ch in t;
      SplitClean(t[n..]);
    }
  }

  lemma DirectoryPlain(st: seq<string>, t: string)
    requires ArePlain(st) && IsTail(t) && NUL !in t
    ensures ArePlain(Directory(st, t)) && AreNames(Directory(st, t))
  {
    SplitClean(t);
    ResolveStaysPlain(st, Split(t));
  }

  lemma PrefixKeepsDirectory(st: seq<string>, t: string)
    requires ArePlain(st) && IsTail(t)
    ensures IsTail(Render(st) + t) && Split(Render(st) + t) == st + Split(t)
    ensures Directory([], Render(st) + t) == Directory(st, t)
  {
    assert AreNames(st);
    SplitRender(st, t);
    ResolveConcat([], st, Split(t));
    ResolvePlain([], st);
    assert [] + st == st;
  }

  /** Starting the rewriting at the end of a canonical prefix loses nothing. */
  lemma PrefixAlreadyRead(st: seq<string>, t: string)
    requires ArePlain(st) && IsTail(t)
    ensures IsTail(Render(st) + t) && Directory([], Render(st) + t) == Directory(st, t)
    ensures t != "" ==> CanonText([], Render(st) + t) == CanonText(st, t)
  {
    PrefixKeepsDirectory(st, t);
    if t != "" {
      var cs := Split(t);
      assert (st + cs)[|st + cs| - 1] == cs[|cs| - 1];
    }
  }

  /** The first component of a text, and the text behind it. */
  lemma FirstSlash(a: string) returns (c: string, rest: string)
    requires IsTail(a) && a != ""
    ensures '/' !in c && IsTail(rest) && |rest| < |a| && a == "/" + c + rest
  {
    var n := NextSlash(a, 1);
    c, rest := a[1..n], a[n..];
  }

  lemma ConsConcat(c: string, x: seq<string>, y: seq<string>)
    ensures [c] + (x + y) == [c] + x + y
  {
  }

  lemma {:induction false} SplitConcat(a: string, b: string)
    requires IsTail(a) && IsTail(b)
    ensures IsTail(a + b) && Split(a + b) == Split(a) + Split(b)
    decreases |a|
  {
    if a == "" {
      assert a + b == b;
    } else {
      var c, rest := FirstSlash(a);
      SplitConcat(rest, b);
      SplitCons(c, rest);
      SplitCons(c, rest + b);
      Regroup("/", c, rest, b);
      ConsConcat(c, Split(rest), Split(b));
    }
  }

  /** A path is walked from left to right. */
  lemma WalksOn(st: seq<string>, a: string, b: string)
    requires IsTail(a) && IsTail(b)
    ensures IsTail(a + b) && Directory(st, a + b) == Directory(Directory(st, a), b)
  {
    SplitConcat(a, b);
    ResolveConcat(st, Split(a), Split(b));
  }

  /** A name goes down, and ".." goes back up. */
  lemma DownAndUp(st: seq<string>, c: string)
    requires IsPlain(c)
    ensures Directory(st, "/" + c) == st + [c]
    ensures Directory(st + [c], "/..") == st && Directory([], "/..") == []
  {
    ComponentStep(st, c, "");
    ComponentStep(st + [c], "..", "");
    ComponentStep([], "..", "");
    assert "/" + c + "" == "/" + c && "/" + ".." + "" == "/..";
    assert (st + [c])[..|st|] == st;
  }

  lemma StaysThere(st: seq<string>)
    ensures Directory(st, "/.") == st && Directory(st, "/") == st
  {
    ComponentStep(st, ".", "");
    ComponentStep(st, "", "");
    assert "/" + "." + "" == "/." && "/" + "" + "" == "/";
  }

  /** No empty, "." or ".." component and no trailing slash: the normal form of an absolute path. */
  predicate IsCanonical(s: string) {
    s != "" && IsTail(s) && (s == "/" || ArePlain(Split(s)))
  }

  /** The rewriting keeps the directory that the path names. */
  lemma CanonKeepsDirectory(st: seq<string>, t: string)
    requires ArePlain(st) && IsTail(t) && NUL !in t
    ensures IsTail(CanonText(st, t)) && Directory([], CanonText(st, t)) == Directory(st, t)
  {
    var r := Directory(st, t);
    DirectoryPlain(st, t);
    if r != [] {
      PrefixAlreadyRead(r, "");
      assert Render(r) + "" == Render(r);
    } else {
      SplitCons("", "");
      SplitCons(".", "");
      assert "/" + "." + "" == "/." && "/" + "" + "" == "/";
      assert Split("/.") == ["."] && Split("/") == [""];
    }
  }

  /** The text left is the normal form, with the one exception of a last "." over the root. */
  lemma CanonIsCanonical(st: seq<string>, t: string)
    requires ArePlain(st) && IsTail(t) && NUL !in t && (t != "" || st != [])
    ensures IsCanonical(CanonText(st, t)) <==> !DotOverRoot(st, t)
  {
    var r := Directory(st, t);
    DirectoryPlain(st, t);
    if r != [] {
      SplitRender(r, "");
      RenderShape(r);
      assert Render(r) + "" == Render(r) && r + [] == r;
    } else {
      SplitCons(".", "");
      assert "/" + "." + "" == "/.";
      assert Split("/.")[0] == ".";
    }
  }

  /** Two paths have the same canonical text exactly when they name the same directory. */
  lemma CanonDecidesDirectory(s: string, t: string)
    requires IsTail(s) && IsTail(t) && s != "" && t != "" && NUL !in s && NUL !in t
    requires !DotOverRoot([], s) && !DotOverRoot([], t)
    ensures CanonText([], s) == CanonText([], t) <==> Directory([], s) == Directory([], t)
  {
    CanonKeepsDirectory([], s);
    CanonKeepsDirectory([], t);
  }

  /** Canonicalising twice changes nothing more. */
  lemma CanonIdempotent(st: seq<string>, t: string)
    requires ArePlain(st) && IsTail(t) && NUL !in t && (t != "" || st != [])
    ensures IsTail(CanonText(st, t)) && CanonText([], CanonText(st, t)) == CanonText(st, t)
  {
    CanonKeepsDirectory(st, t);
    if Directory(st, t) == [] {
      SplitCons(".", "");
      SplitCons("", "");
      assert "/" + "." + "" == "/." && "/" + "" + "" == "/";
      assert Split("/.")[0] == "." && Split("/")[0] == "";
    } else {
      RenderShape(Directory(st, t)) by { DirectoryPlain(st, t); }
    }
  }

  // ----- Relative paths: dnormalize and dgoto

  /** The name that the shell keeps for a directory. */
  function DirName(st: seq<string>): string {
    if st == [] then "/" else Render(st)
  }

  /** ISDOT: a "." that is a whole component. */
  predicate IsDot(cp: string) {
    cp != "" && cp[0] == '.' && (|cp| == 1 || cp[1] == '/')
  }

  /** ISDOTDOT: a ".." that is a whole component. */
  predicate IsDotDot(cp: string) {
    cp != "" && cp[0] == '.' && IsDot(cp[1..])
  }

  /** What follows the first `k` characters and the slash after them. */
  function After(cp: string, k: nat): string
    requires k <= |cp|
  {
    if k == |cp| then "" else cp[k + 1..]
  }

  /** The path after its leading "." and ".." components, and how many were "..". */
  function SkipDots(cp: string): (string, nat)
    decreases |cp|
  {
    if IsDot(cp) then SkipDots(After(cp, 1))
    else if IsDotDot(cp) then var r := SkipDots(After(cp, 2)); (r.0, r.1 + 1)
    else (cp, 0)
  }

  function Up(st: seq<string>, n: nat): seq<string> {
    if n <= |st| then st[..|st| - n] else []
  }

  /** The text dnormalize builds for a relative path. */
  function NormalText(st: seq<string>, cp: string): string {
    var (rest, n) := SkipDots(cp);
    var base := if n == 0 then DirName(st) else Render(Up(st, n));
    if rest != "" then base + "/" + rest else if base == "" then "/" else base
  }

  /** `Strrchr(cwd, '/')`: the index of the last slash, or -1. */
  method LastSlash(s: string) returns (k: int)
    ensures -1 <= k < |s| && '/' !in s[k + 1..] && (k >= 0 ==> s[k] == '/')
  {
    k := |s| - 1;
    while k >= 0 && s[k] != '/'
      invariant -1 <= k < |s| && '/' !in s[k + 1..]
    {
      k := k - 1;
    }
  }

  /** Dropping the text from the last slash on drops the last component. */
  lemma LastSlashOfRender(st: seq<string>, k: int)
    requires AreNames(st) && -1 <= k < |Render(st)|
    requires '/' !in Render(st)[k + 1..] && (k >= 0 ==> Render(st)[k] == '/')
    ensures (k == -1) == (st == [])
    ensures st != [] ==> Render(st)[..k] == Render(st[..|st| - 1])
  {
    if st != [] {
      RenderTop(st, Render(st));
      var below := |Render(st[..|st| - 1])|;
      assert Render(st)[below + 1..] == st[|st| - 1];
    }
  }

  /** The loop that ignores "." and counts "..". */
  method CountDots(cp0: string) returns (cp: string, dotdot: nat)
    ensures SkipDots(cp0) == (cp, dotdot)
  {
    cp, dotdot := cp0, 0;
    while cp != ""
      invariant SkipDots(cp0) == (SkipDots(cp).0, SkipDots(cp).1 + dotdot)
      decreases |cp|
    {
      if IsDot(cp) {
        cp := After(cp, 1);
      } else if IsDotDot(cp) {
        dotdot := dotdot + 1;
        cp := After(cp, 2);
      } else {
        break;
      }
    }
  }

  function Parent(st: seq<string>): seq<string> {
    if st == [] then [] else st[..|st| - 1]
  }

  lemma UpOfParent(st: seq<string>, n: nat)
    requires n > 0
    ensures Up(Parent(st), n - 1) == Up(st, n)
  {
  }

  lemma RootOff(cwd: string, k: int)
    requires cwd == "/" && -1 <= k < |cwd| && '/' !in cwd[k + 1..]
    ensures k >= 0 && cwd[..k] == ""
  {
    assert cwd[0..][0] == '/';
  }

  /** One round of the loop: the text up to the last slash is the parent directory. */
  lemma OneOff(now: seq<string>, first: bool, cwd: string, k: int)
    requires AreNames(now) && cwd == if first then DirName(now) else Render(now)
    requires -1 <= k < |cwd| && '/' !in cwd[k + 1..] && (k >= 0 ==> cwd[k] == '/')
    ensures AreNames(Parent(now))
    ensures if k >= 0 then cwd[..k] == Render(Parent(now)) else !first && now == []
  {
    if first && now == [] {
      RootOff(cwd, k);
    } else {
      LastSlashOfRender(now, k);
    }
  }

  /** The body of the loop: cut at the last slash, if there is one. */
  method CutLast(cwd: string, ghost now: seq<string>, ghost first: bool) returns (up: string, found: bool)
    requires AreNames(now) && cwd == if first then DirName(now) else Render(now)
    ensures AreNames(Parent(now))
    ensures if found then up == Render(Parent(now)) else !first && now == [] && up == cwd
  {
    var k := LastSlash(cwd);
    OneOff(now, first, cwd, k);
    if k < 0 {
      return cwd, false;
    }
    return cwd[..k], true;
  }

  /** The loop that takes components off the working directory, as long as there is one. */
  method TakeOff(cwd0: string, n: nat, ghost st: seq<string>) returns (cwd: string)
    requires AreNames(st) && cwd0 == DirName(st)
    ensures cwd == if n == 0 then cwd0 else Render(Up(st, n))
  {
    cwd := cwd0;
    var dotdot := n;
    ghost var now := st;
    while dotdot > 0
      invariant 0 <= dotdot <= n && AreNames(now) && Up(now, dotdot) == Up(st, n)
      invariant if dotdot == n then now == st && cwd == DirName(st) else cwd == Render(now)
    {
      var found;
      cwd, found := CutLast(cwd, now, dotdot == n);
      if !found {
        return;
      }
      UpOfParent(now, dotdot);
      dotdot, now := dotdot - 1, Parent(now);
    }
    assert Up(now, 0) == now;
  }

  /** dnormalize: a leading "." or ".." is worked off against the name of the working directory. */
  method Dnormalize(cp0: string, cwd0: string, ignoreSymlinks: bool, ghost st: seq<string>) returns (r: string)
    requires AreNames(st) && cwd0 == DirName(st)
    ensures r == if !ignoreSymlinks || (cp0 != "" && cp0[0] == '/') then cp0 else NormalText(st, cp0)
  {
    if (cp0 != "" && cp0[0] == '/') || !ignoreSymlinks {
      return cp0;
    }
    var cp, dotdot := CountDots(cp0);
    var cwd := TakeOff(cwd0, dotdot, st);
    if cp != "" {
      r := cwd + "/" + cp;
    } else {
      r := if cwd == "" then "/" else cwd;
    }
  }

  /** The string that a buffer holds. */
  method ReadString(buf: array<char>, ghost s: string) returns (r: string)
    requires Holds(buf, s)
    ensures r == s
  {
    var n := 0;
    while buf[n] != NUL
      invariant 0 <= n <= |s|
      decreases |s| - n
    {
      n := n + 1;
    }
    r := buf[..n];
  }

  /** dgoto: the canonical name of the directory that `cp` names from the directory `st`. */
  method Dgoto(cp: string, cwd: string, ghost st: seq<string>) returns (r: string)
    requires AreNames(st) && cwd == DirName(st) && NUL !in cp
    ensures r == if cp != "" && cp[0] == '/' then CanonText([], cp) else CanonText(st, "/" + cp)
  {
    RenderShape(st);
    var cwdlen := if |cwd| == 1 then 0 else |cwd|;      // the root adds no slash of its own
    var absolute := cp != "" && cp[0] == '/';
    var s := if absolute then cp else cwd[..cwdlen] + "/" + cp;
    var start := if absolute then 0 else cwdlen;
    ghost var from := if absolute then [] else st;
    ghost var t := if absolute then cp else "/" + cp;
    assert s == Render(from) + t;
    var buf := new char[|s| + 1](i requires 0 <= i <= |s| => (s + [NUL])[i]);
    assert buf[..|s|] == s;
    Dcanon(buf, start, from, t);
    r := ReadString(buf, CanonText(from, t));
  }

  lemma LoneSlash(st: seq<string>)
    ensures Directory(st, "/") == st
  {
    SplitStep(st, "/", 1);
  }

  lemma DotsEnd(cp: string, k: nat)
    requires (k == 1 && IsDot(cp)) || (k == 2 && IsDotDot(cp))
    ensures k <= |cp| && cp[..k] == if k == 1 then "." else ".."
    ensures IsTail(cp[k..]) && cp[k..] == (if k == |cp| then "" else "/" + After(cp, k))
    ensures "/" + cp == "/" + cp[..k] + cp[k..]
  {
    assert k == 2 ==> cp[1..][0] == cp[1] && (|cp| == 2 || cp[1..][1] == cp[2]);
  }

  /** From st, the path cp leads to where rest leads from st1, and is rewritten alike. */
  ghost predicate Leads(st: seq<string>, cp: string, st1: seq<string>, rest: string) {
    && Directory(st, "/" + cp) == (if rest == "" then st1 else Directory(st1, "/" + rest))
    && (rest != "" ==> CanonText(st, "/" + cp) == CanonText(st1, "/" + rest))
  }

  /** A leading "." or ".." of `k` characters is one component of the walk. */
  lemma FirstDots(st: seq<string>, cp: string, k: nat)
    requires (k == 1 && IsDot(cp)) || (k == 2 && IsDotDot(cp))
    ensures Leads(st, cp, Up(st, k - 1), After(cp, k))
  {
    DotsEnd(cp, k);
    ComponentStep(st, cp[..k], cp[k..]);
    assert Visit(st, cp[..k]) == Up(st, k - 1);
    LoneSlash(Up(st, k - 1));
    assert "/" + "" == "/";
  }

  lemma UpUp(st: seq<string>, m: nat, n: nat)
    ensures Up(Up(st, m), n) == Up(st, m + n)
  {
  }

  lemma LeadsOn(st: seq<string>, cp: string, st1: seq<string>, rest1: string, st2: seq<string>, rest2: string)
    requires Leads(st, cp, st1, rest1) && Leads(st1, rest1, st2, rest2)
    requires rest1 == "" ==> rest2 == "" && st2 == st1
    ensures Leads(st, cp, st2, rest2)
  {
  }

  lemma StaysPut(st: seq<string>, cp: string)
    ensures Leads(st, cp, Up(st, 0), cp)
  {
    assert Up(st, 0) == st;
    if cp == "" {
      LoneSlash(st);
      assert "/" + cp == "/";
    }
  }

  lemma {:induction false} SkipDotsDirectory(st: seq<string>, cp: string)
    ensures Leads(st, cp, Up(st, SkipDots(cp).1), SkipDots(cp).0)
    decreases |cp|
  {
    if IsDot(cp) || IsDotDot(cp) {
      var k := if IsDot(cp) then 1 else 2;
      var up, rest := Up(st, k - 1), After(cp, k);
      FirstDots(st, cp, k);
      SkipDotsDirectory(up, rest);
      UpUp(st, k - 1, SkipDots(rest).1);
      assert Up(up, 0) == up;
      LeadsOn(st, cp, up, rest, Up(up, SkipDots(rest).1), SkipDots(rest).0);
    } else {
      StaysPut(st, cp);
    }
  }

  lemma DirNameReads(st: seq<string>)
    requires ArePlain(st)
    ensures IsTail(DirName(st)) && Directory([], DirName(st)) == st && CanonText([], DirName(st)) == DirName(st)
  {
    RenderShape(st);
    if st == [] {
      LoneSlash([]);
      SplitStep([], "/", 1);
    } else {
      PrefixAlreadyRead(st, "");
      assert Render(st) + "" == Render(st);
    }
  }

  /** A base that names `st` is read through, also when it brings the root's own slash. */
  lemma JoinReads(st: seq<string>, base: string, rest: string)
    requires ArePlain(st) && (base == Render(st) || base == DirName(st))
    ensures var t := "/" + rest;
            IsTail(base + "/" + rest) && Directory([], base + "/" + rest) == Directory(st, t)
            && CanonText([], base + "/" + rest) == CanonText(st, t)
  {
    var t := "/" + rest;
    assert base + "/" + rest == base + t;
    if base == Render(st) {
      PrefixAlreadyRead(st, t);
    } else {
      assert base + t == "/" + "" + t;
      ComponentStep([], "", t);
    }
  }

  lemma NormalTextCases(st: seq<string>, cp: string)
    requires AreNames(st)
    ensures var (rest, n) := SkipDots(cp);
            && (rest == "" ==> NormalText(st, cp) == DirName(Up(st, n)))
            && (rest != "" ==> exists base :: (base == Render(Up(st, n)) || base == DirName(Up(st, n)))
                                              && NormalText(st, cp) == base + "/" + rest)
  {
    var (rest, n) := SkipDots(cp);
    assert Up(st, 0) == st;
    RenderShape(Up(st, n));
    var base := if n == 0 then DirName(st) else Render(Up(st, n));
    assert rest != "" ==> NormalText(st, cp) == base + "/" + rest;
  }

  /**
    With symbolic links ignored, working off leading dots and then canonicalising leads to
    the directory that canonicalising the path itself leads to, and leaves the same text
    unless the path was dots only and its own reading ends in the exception over the root.
   */
  lemma NormalizeThenGoto(st: seq<string>, cp: string)
    requires ArePlain(st) && NUL !in cp && !(cp != "" && cp[0] == '/')
    ensures IsTail(NormalText(st, cp)) && Directory([], NormalText(st, cp)) == Directory(st, "/" + cp)
    ensures CanonText([], NormalText(st, cp)) == CanonText(st, "/" + cp)
            <==> !(SkipDots(cp).0 == "" && DotOverRoot(st, "/" + cp))
  {
    var (rest, n) := SkipDots(cp);
    assert AreNames(st);
    SkipDotsDirectory(st, cp);
    NormalTextCases(st, cp);
    if rest == "" {
      DirNameReads(Up(st, n));
    } else {
      var base :| (base == Render(Up(st, n)) || base == DirName(Up(st, n)))
                  && NormalText(st, cp) == base + "/" + rest;
      JoinReads(Up(st, n), base, rest);
    }
  }

  /** The exception is real: from the root, "." stays "/." when it is canonicalised directly. */
  lemma DotAtTheRoot()
    ensures CanonText([], "/.") == "/." && CanonText([], NormalText([], ".")) == "/"
    ensures !IsCanonical("/.")
  {
    ComponentStep([], ".", "");
    SplitCons(".", "");
    assert "/" + "." + "" == "/." && Split("/.")[0] == ".";
    assert SkipDots(".") == ("", 0);
    LoneSlash([]);
    SplitStep([], "/", 1);
  }
}
