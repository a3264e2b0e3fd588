/**
  Brace expansion of the C shell: globbrace and expbrace (usr/src/bin/csh/glob.c).

  `Braced` says what one brace group is replaced by, `Expand` what a word becomes when
  the leftmost group is replaced until none is left.  The methods are the code's own
  loops: a scan over one word, and a worklist kept in the array that it expands.
 */
module Braces {
  import opened Numbers

  datatype Missing = MissingBracket | MissingBrace
  datatype Result<+T> = Ok(value: T) | Err(missing: Missing)

  const GLOBSPACE: nat := 100

  // ----- One brace group

  /** Index of the first `c` of `s` at or after `k`, or the length of `s`. */
  function IndexFrom(s: string, c: char, k: nat): (n: nat)
    requires k <= |s|
    ensures k <= n <= |s| && c !in s[k..n] && (n < |s| ==> s[n] == c)
    decreases |s| - k
  {
    if k == |s| || s[k] == c then k
    else
      var n := IndexFrom(s, c, k + 1);
      assert s[k..n] == [s[k]] + s[k + 1..n];
      n
  }

  /** Where the group closes that is `depth` groups open at `k`; what stands in [ ] does not count. */
  function Close(s: string, k: nat, depth: nat): (r: Result<nat>)
    requires k <= |s|
    ensures r.Ok? ==> k <= r.value < |s| && s[r.value] == '}'
    decreases |s| - k
  {
    if k == |s| then Err(MissingBrace)
    else if s[k] == '[' then
      var e := IndexFrom(s, ']', k + 1);
      if e == |s| then Err(MissingBracket) else Close(s, e + 1, depth)
    else if s[k] == '{' then Close(s, k + 1, depth + 1)
    else if s[k] == '}' then if depth == 0 then Ok(k) else Close(s, k + 1, depth - 1)
    else Close(s, k + 1, depth)
  }

  /** The alternatives of the group that closes at `pe`: `pl` starts the current one, `k` scans it. */
  function Alternatives(s: string, pl: nat, k: nat, depth: nat, pe: nat): seq<string>
    requires pl <= k && pe < |s|
    decreases |s| - k
  {
    if k > pe then []
    else if s[k] == '[' then Alternatives(s, pl, IndexFrom(s, ']', k + 1) + 1, depth, pe)
    else if s[k] == '{' then Alternatives(s, pl, k + 1, depth + 1, pe)
    else if s[k] == '}' && depth > 0 then Alternatives(s, pl, k + 1, depth - 1, pe)
    else if s[k] == '}' || (s[k] == ',' && depth == 0) then
      [s[pl..k]] + Alternatives(s, k + 1, k + 1, depth, pe)
    else Alternatives(s, pl, k + 1, depth, pe)
  }

  /** The words that replace a word when its leftmost group is replaced by its alternatives. */
  function Braced(s: string): Result<seq<string>>
    requires '{' in s
  {
    var a := IndexFrom(s, '{', 0);
    match Close(s, a + 1, 0)
    case Err(e) => Err(e)
    case Ok(b) => Ok(Around(s[..a], Alternatives(s, a + 1, a + 1, 0, b), s[b + 1..]))
  }

  function Around(pre: string, alts: seq<string>, post: string): (r: seq<string>)
    ensures |r| == |alts| && forall i :: 0 <= i < |alts| ==> r[i] == pre + alts[i] + post
  {
    seq(|alts|, i requires 0 <= i < |alts| => pre + alts[i] + post)
  }

  // ----- What is missing

  lemma {:induction false} IndexAt(s: string, c: char, k: nat, n: nat)
    requires k <= n <= |s| && c !in s[k..n] && (n < |s| ==> s[n] == c)
    ensures IndexFrom(s, c, k) == n
    decreases n - k
  {
    if k < n {
      assert s[k..n][0] == s[k] && s[k..n][1..] == s[k + 1..n];
      IndexAt(s, c, k + 1, n);
    }
  }

  lemma NoneBehind(s: string, c: char, k: nat)
    requires k <= |s| && c !in s[k..]
    ensures IndexFrom(s, c, k) == |s|
  {
    assert s[k..|s|] == s[k..];
    IndexAt(s, c, k, |s|);
  }

  /** Without a closing brace behind it a group is not closed; an open bracket is reported first. */
  lemma {:induction false} NotClosed(s: string, k: nat, depth: nat)
    requires k <= |s| && '}' !in s[k..]
    ensures Close(s, k, depth).Err?
    ensures '[' !in s[k..] ==> Close(s, k, depth) == Err(MissingBrace)
    decreases |s| - k
  {
    if k < |s| {
      assert s[k..][0] == s[k] && forall i :: k + 1 <= i < |s| ==> s[i] == s[k..][i - k];
      if s[k] == '[' {
        var e := IndexFrom(s, ']', k + 1);
        if e < |s| {
          assert forall x :: x in s[e + 1..] ==> x in s[k..];
          NotClosed(s, e + 1, depth);
        }
      } else {
        assert forall x :: x in s[k + 1..] ==> x in s[k..];
        NotClosed(s, k + 1, if s[k] == '{' then depth + 1 else depth);
      }
    }
  }

  /** A bracket in a group that is not closed. */
  lemma {:induction false} BracketOpen(s: string, k: nat, b: nat, depth: nat)
    requires k <= b < |s| && s[b] == '[' && ']' !in s[b..] && forall i :: k <= i < b ==> s[i] !in "[]{}"
    ensures Close(s, k, depth) == Err(MissingBracket)
    decreases b - k
  {
    if k < b {
      BracketOpen(s, k + 1, b, depth);
    } else {
      assert s[b..][1..] == s[k + 1..];
      NoneBehind(s, ']', k + 1);
    }
  }

  /** The errors of a word whose group is not closed, or has an open bracket before any other brace. */
  lemma MissingErrors(u: string, v: string)
    requires '{' !in u
    ensures '}' !in v && '[' !in v ==> Braced(u + "{" + v) == Err(MissingBrace)
    ensures forall b :: 0 <= b < |v| && v[b] == '[' && ']' !in v[b..] && (forall i :: 0 <= i < b ==> v[i] !in "[]{}")
              ==> Braced(u + "{" + v) == Err(MissingBracket)
  {
    var s := u + "{" + v;
    var a := |u|;
    assert s[a] == '{' && s[a + 1..] == v;
    assert s[0..a] == u;
    IndexAt(s, '{', 0, a);
    if '}' !in v {
      NotClosed(s, a + 1, 0);
    }
    forall b | 0 <= b < |v| && v[b] == '[' && ']' !in v[b..] && (forall i :: 0 <= i < b ==> v[i] !in "[]{}")
      ensures Braced(s) == Err(MissingBracket)
    {
      assert s[a + 1 + b..] == v[b..] && s[a + 1 + b] == v[b];
      assert forall i :: a + 1 <= i < a + 1 + b ==> s[i] == v[i - a - 1];
      BracketOpen(s, a + 1, a + 1 + b, 0);
    }
  }

  // ----- Why the expansion ends: every replacement has fewer open braces

  function Opens(s: string): nat {
    multiset(s)['{']
  }

  lemma OpensPart(s: string, i: nat, j: nat)
    requires i <= j <= |s|
    ensures Opens(s) == Opens(s[..i]) + Opens(s[i..j]) + Opens(s[j..])
  {
    assert s == s[..i] + s[i..j] + s[j..];
  }

  /** Every alternative is a stretch of the word between the braces. */
  lemma {:induction false} AlternativesInside(s: string, pl: nat, k: nat, depth: nat, pe: nat)
    requires pl <= k && pe < |s|
    ensures forall x :: x in Alternatives(s, pl, k, depth, pe)
              ==> exists i, j :: pl <= i <= j <= pe && x == s[i..j]
    decreases |s| - k
  {
    if k <= pe {
      if s[k] == '[' {
        AlternativesInside(s, pl, IndexFrom(s, ']', k + 1) + 1, depth, pe);
      } else if s[k] == '{' {
        AlternativesInside(s, pl, k + 1, depth + 1, pe);
      } else if s[k] == '}' && depth > 0 {
        AlternativesInside(s, pl, k + 1, depth - 1, pe);
      } else if s[k] == '}' || (s[k] == ',' && depth == 0) {
        AlternativesInside(s, k + 1, k + 1, depth, pe);
      } else {
        AlternativesInside(s, pl, k + 1, depth, pe);
      }
    }
  }

  /** The closing brace ends an alternative, so there is at least one. */
  lemma {:induction false} SomeAlternative(s: string, pl: nat, k: nat, depth: nat, pe: nat)
    requires pl <= k <= |s| && pe < |s| && Close(s, k, depth) == Ok(pe)
    ensures |Alternatives(s, pl, k, depth, pe)| >= 1
    decreases |s| - k
  {
    if s[k] == '[' {
      SomeAlternative(s, pl, IndexFrom(s, ']', k + 1) + 1, depth, pe);
    } else if s[k] == '{' {
      SomeAlternative(s, pl, k + 1, depth + 1, pe);
    } else if s[k] == '}' && depth > 0 {
      SomeAlternative(s, pl, k + 1, depth - 1, pe);
    } else if s[k] != '}' && !(s[k] == ',' && depth == 0) {
      SomeAlternative(s, pl, k + 1, depth, pe);
    }
  }

  lemma BracedFewer(s: string)
    requires '{' in s && Braced(s).Ok?
    ensures |Braced(s).value| >= 1
    ensures forall i :: 0 <= i < |Braced(s).value| ==> Opens(Braced(s).value[i]) < Opens(s)
  {
    var a := IndexFrom(s, '{', 0);
    var b := Close(s, a + 1, 0).value;
    var alts := Alternatives(s, a + 1, a + 1, 0, b);
    SomeAlternative(s, a + 1, a + 1, 0, b);
    AlternativesInside(s, a + 1, a + 1, 0, b);
    forall n | 0 <= n < |alts| ensures Opens(s[..a] + alts[n] + s[b + 1..]) < Opens(s) {
      assert alts[n] in alts;
      var i, j :| a + 1 <= i <= j <= b && alts[n] == s[i..j];
      FewerOpens(s, a, b, i, j);
    }
  }

  lemma FewerOpens(s: string, a: nat, b: nat, i: nat, j: nat)
    requires a < i <= j <= b < |s| && s[a] == '{'
    ensures Opens(s[..a] + s[i..j] + s[b + 1..]) < Opens(s)
  {
    OpensPart(s, a, b + 1);
    OpensWithin(s[a..b + 1], i - a, j - a);
    SliceOfSlice(s, a, b + 1, i, j);
    OpensJoin(s[..a], s[i..j], s[b + 1..]);
  }

  lemma OpensJoin(x: string, y: string, z: string)
    ensures Opens(x + y + z) == Opens(x) + Opens(y) + Opens(z)
  {
  }

  lemma OpensWithin(g: string, i: nat, j: nat)
    requires 0 < i <= j <= |g| && g[0] == '{'
    ensures Opens(g[i..j]) < Opens(g)
  {
    OpensPart(g, i, j);
    assert g[..i][0] == '{';
  }

  lemma SliceOfSlice(s: string, a: nat, b: nat, i: nat, j: nat)
    requires a <= i <= j <= b <= |s|
    ensures s[a..b][i - a..j - a] == s[i..j]
  {
    var x, y := s[a..b][i - a..j - a], s[i..j];
    assert |x| == |y| && forall k :: 0 <= k < |x| ==> x[k] == y[k];
  }

  // ----- The expansion of a word and of a list

  /** "{" and "{}" stay for find; any other word with an open brace is expanded. */
  predicate Needs(w: string) {
    '{' in w && w != "{" && w != "{}"
  }

  /** One after the other, the first error standing for all. */
  function Collect(rs: seq<Result<seq<string>>>): Result<seq<string>> {
    if rs == [] then Ok([])
    else match rs[0]
      case Err(e) => Err(e)
      case Ok(ws) => Before(ws, Collect(rs[1..]))
  }

  function Before(ws: seq<string>, r: Result<seq<string>>): Result<seq<string>> {
    match r { case Err(e) => Err(e) case Ok(us) => Ok(ws + us) }
  }

  function Expand(w: string): Result<seq<string>>
    decreases Opens(w)
  {
    if !Needs(w) then Ok([w])
    else match Braced(w)
      case Err(e) => Err(e)
      case Ok(ps) =>
        BracedFewer(w);
        Collect(seq(|ps|, i requires 0 <= i < |ps| => Expand(ps[i])))
  }

  function ExpandAll(ws: seq<string>): Result<seq<string>> {
    if ws == [] then Ok([])
    else match Expand(ws[0])
      case Err(e) => Err(e)
      case Ok(us) => Before(us, ExpandAll(ws[1..]))
  }

  lemma {:induction false} CollectIsExpandAll(ws: seq<string>, rs: seq<Result<seq<string>>>)
    requires |rs| == |ws| && forall i :: 0 <= i < |ws| ==> rs[i] == Expand(ws[i])
    ensures Collect(rs) == ExpandAll(ws)
    decreases |ws|
  {
    if ws != [] {
      CollectIsExpandAll(ws[1..], rs[1..]);
    }
  }

  /** Expanding a word is expanding its replacements in order. */
  lemma ExpandStep(w: string)
    requires Needs(w) && Braced(w).Ok?
    ensures Expand(w) == ExpandAll(Braced(w).value)
  {
    var ps := Braced(w).value;
    BracedFewer(w);
    CollectIsExpandAll(ps, seq(|ps|, i requires 0 <= i < |ps| => Expand(ps[i])));
  }

  lemma {:induction false} ExpandAllConcat(a: seq<string>, b: seq<string>)
    ensures ExpandAll(a + b) == match ExpandAll(a) { case Err(e) => Err(e) case Ok(us) => Before(us, ExpandAll(b)) }
    decreases |a|
  {
    if a == [] {
      assert a + b == b;
      match ExpandAll(b) { case Err(e) => case Ok(us) => assert [] + us == us; }
    } else {
      assert (a + b)[1..] == a[1..] + b;
      ExpandAllConcat(a[1..], b);
      if Expand(a[0]).Ok? && ExpandAll(a[1..]).Ok? && ExpandAll(b).Ok? {
        assert Expand(a[0]).value + (ExpandAll(a[1..]).value + ExpandAll(b).value)
            == Expand(a[0]).value + ExpandAll(a[1..]).value + ExpandAll(b).value;
      }
    }
  }

  /** One round of the worklist: the first word leaves, or its replacements take its place. */
  lemma WorklistStep(rest: seq<string>)
    requires rest != []
    ensures !Needs(rest[0]) ==> ExpandAll(rest) == Before([rest[0]], ExpandAll(rest[1..]))
    ensures Needs(rest[0]) ==>
              (match Braced(rest[0])
               case Err(e) => ExpandAll(rest) == Err(e)
               case Ok(ps) => ExpandAll(rest) == ExpandAll(ps + rest[1..]))
  {
    if Needs(rest[0]) && Braced(rest[0]).Ok? {
      ExpandStep(rest[0]);
      ExpandAllConcat(Braced(rest[0]).value, rest[1..]);
    }
  }

  function Sum(ns: seq<nat>): nat {
    if ns == [] then 0 else ns[0] + Sum(ns[1..])
  }

  /** The rounds that the worklist spends on a word. */
  ghost function Rounds(w: string): (n: nat)
    ensures n > 0
    decreases Opens(w)
  {
    if Needs(w) && Braced(w).Ok? then
      var ps := Braced(w).value;
      BracedFewer(w);
      1 + Sum(seq(|ps|, i requires 0 <= i < |ps| => Rounds(ps[i])))
    else 1
  }

  ghost function RoundsAll(ws: seq<string>): nat {
    if ws == [] then 0 else Rounds(ws[0]) + RoundsAll(ws[1..])
  }

  lemma {:induction false} SumIsRoundsAll(ws: seq<string>, ns: seq<nat>)
    requires |ns| == |ws| && forall i :: 0 <= i < |ws| ==> ns[i] == Rounds(ws[i])
    ensures Sum(ns) == RoundsAll(ws)
    decreases |ws|
  {
    if ws != [] {
      SumIsRoundsAll(ws[1..], ns[1..]);
    }
  }

  lemma {:induction false} RoundsAllConcat(a: seq<string>, b: seq<string>)
    ensures RoundsAll(a + b) == RoundsAll(a) + RoundsAll(b)
    decreases |a|
  {
    if a == [] {
      assert a + b == b;
    } else {
      assert (a + b)[1..] == a[1..] + b;
      RoundsAllConcat(a[1..], b);
    }
  }

  /** A round that replaces a word leaves fewer rounds to do. */
  lemma FewerRounds(rest: seq<string>)
    requires rest != [] && Needs(rest[0]) && Braced(rest[0]).Ok?
    ensures |Braced(rest[0]).value| >= 1
    ensures RoundsAll(Braced(rest[0]).value + rest[1..]) < RoundsAll(rest)
  {
    var w := rest[0];
    var ps := Braced(w).value;
    BracedFewer(w);
    SumIsRoundsAll(ps, seq(|ps|, i requires 0 <= i < |ps| => Rounds(ps[i])));
    RoundsAllConcat(ps, rest[1..]);
  }

  // ----- The code's loops

  /** Past the body of a class, to its ] or to the end of the word. */
  method SkipClass(s: string, k: nat) returns (pe: nat)
    requires k <= |s|
    ensures pe == IndexFrom(s, ']', k)
  {
    pe := k;
    while pe < |s| && s[pe] != ']'
      invariant k <= pe <= |s| && IndexFrom(s, ']', k) == IndexFrom(s, ']', pe)
    {
      pe := pe + 1;
    }
  }

  /** The scan for the balancing brace. */
  method FindClose(s: string, p: nat) returns (r: Result<nat>)
    requires p <= |s|
    ensures r == Close(s, p, 0)
  {
    var i, pe := 0, p;
    while pe < |s|
      invariant p <= pe <= |s| && i >= 0
      invariant Close(s, p, 0) == Close(s, pe, i)
    {
      if s[pe] == '[' {
        pe := SkipClass(s, pe + 1);
        if pe == |s| {
          return Err(MissingBracket);
        }
      } else if s[pe] == '{' {
        i := i + 1;
      } else if s[pe] == '}' {
        if i == 0 {
          return Ok(pe);
        }
        i := i - 1;
      }
      pe := pe + 1;
    }
    return Err(MissingBrace);
  }

  lemma AroundSnoc(pre: string, cut: seq<string>, x: string, post: string, rest: seq<string>)
    ensures Around(pre, cut + [x], post) == Around(pre, cut, post) + [pre + x + post]
    ensures cut + ([x] + rest) == (cut + [x]) + rest
  {
  }

  /** The second scan: cut the group at its own commas and build the replacements. */
  method CutGroup(s: string, a: nat, pe: nat) returns (nv: seq<string>)
    requires a < |s| && Close(s, a + 1, 0) == Ok(pe)
    ensures nv == Around(s[..a], Alternatives(s, a + 1, a + 1, 0, pe), s[pe + 1..])
  {
    var gbuf, tail := s[..a], s[pe + 1..];
    nv := [];
    var i, pl, pm := 0, a + 1, a + 1;
    ghost var all, cut := Alternatives(s, a + 1, a + 1, 0, pe), [];
    assert [] + all == all;
    while pm <= pe
      invariant a < pl <= pm <= pe + 1 && i >= 0 && (pm <= pe ==> Close(s, pm, i) == Ok(pe))
      invariant nv == Around(gbuf, cut, tail)
      invariant all == cut + Alternatives(s, pl, pm, i, pe)
      decreases pe + 1 - pm
    {
      if s[pm] == '[' {
        pm := SkipClass(s, pm + 1);
      } else if s[pm] == '{' {
        i := i + 1;
      } else if s[pm] == '}' && i > 0 {
        i := i - 1;
      } else if s[pm] == '}' || (s[pm] == ',' && i == 0) {
        ghost var rest := Alternatives(s, pm + 1, pm + 1, i, pe);
        AroundSnoc(gbuf, cut, s[pl..pm], tail, rest);
        nv := nv + [gbuf + s[pl..pm] + tail];
        cut := cut + [s[pl..pm]];
        pl := pm + 1;
      }
      pm := pm + 1;
    }
  }

  /** globbrace */
  method GlobBrace(s: string) returns (r: Result<seq<string>>)
    requires '{' in s
    ensures r == Braced(s)
  {
    var p := 0;
    while s[p] != '{'
      invariant p <= IndexFrom(s, '{', 0) < |s| && IndexFrom(s, '{', 0) == IndexFrom(s, '{', p)
      decreases |s| - p
    {
      p := p + 1;
    }
    var close := FindClose(s, p + 1);
    if close.Err? {
      return Err(close.missing);
    }
    var nv := CutGroup(s, p, close.value);
    return Ok(nv);
  }

  /** A list of words as it stands in an array, before the terminating NULL. */
  ghost predicate HoldsWords(nv: array<Option<string>>, el: nat, ws: seq<string>)
    reads nv
  {
    el == |ws| < nv.Length && nv[el] == None && forall i :: 0 <= i < el ==> nv[i] == Some(ws[i])
  }

  /** xrealloc, when the replacements would not fit. */
  method Grow(nv0: array<Option<string>>, el: nat, len: nat, ghost ws: seq<string>)
      returns (nv: array<Option<string>>)
    requires HoldsWords(nv0, el, ws)
    ensures HoldsWords(nv, el, ws) && el + len <= nv.Length && (nv == nv0 || fresh(nv))
  {
    nv := nv0;
    if el + len >= nv.Length {
      var l := el + len - nv.Length;
      var size := nv.Length + if GLOBSPACE > l then GLOBSPACE else l;
      nv := new Option<string>[size](_ => None);
      forall i | 0 <= i <= el {
        nv[i] := nv0[i];
      }
    }
  }

  /** Move the cells from `vp + 1` to `el` up by `len`, the last one first. */
  method ShiftUp(nv: array<Option<string>>, el: nat, vp: nat, len: nat)
    requires vp <= el && 0 < len && el + len < nv.Length
    modifies nv
    ensures forall i :: 0 <= i <= vp ==> nv[i] == old(nv[i])
    ensures forall i :: vp + len < i <= el + len ==> nv[i] == old(nv[i - len])
  {
    var bp := el;
    while bp != vp
      invariant vp <= bp <= el
      invariant forall i :: 0 <= i <= bp ==> nv[i] == old(nv[i])
      invariant forall i :: bp + len < i <= el + len ==> nv[i] == old(nv[i - len])
      decreases bp
    {
      nv[bp + len] := nv[bp];
      bp := bp - 1;
    }
  }

  /** Copy the words of `bl` but the first one in behind it. */
  method Fill(nv: array<Option<string>>, vp: nat, bl: seq<string>)
    requires |bl| >= 1 && vp + |bl| <= nv.Length && nv[vp] == Some(bl[0])
    modifies nv
    ensures forall i :: vp <= i < vp + |bl| ==> nv[i] == Some(bl[i - vp])
    ensures forall i :: 0 <= i < vp || vp + |bl| <= i < nv.Length ==> nv[i] == old(nv[i])
  {
    var at := 1;
    while at < |bl|
      invariant 1 <= at <= |bl|
      invariant forall i :: 0 <= i < vp || vp + |bl| <= i < nv.Length ==> nv[i] == old(nv[i])
      invariant forall i :: vp <= i < vp + at ==> nv[i] == Some(bl[i - vp])
    {
      nv[vp + at] := Some(bl[at]);
      at := at + 1;
    }
  }

  /** Put the words `bl` in the place of the word at `vp`, the words after it moving up. */
  method Splice(nv: array<Option<string>>, el: nat, vp: nat, bl: seq<string>, ghost ws: seq<string>)
    requires HoldsWords(nv, el, ws) && vp < el && |bl| > 1 && el + |bl| <= nv.Length
    modifies nv
    ensures HoldsWords(nv, el + |bl| - 1, ws[..vp] + bl + ws[vp + 1..])
  {
    nv[vp] := Some(bl[0]);
    var len := |bl| - 1;
    ShiftUp(nv, el, vp, len);
    Fill(nv, vp, bl);
  }

  /** The word at `vl` gives way to the words `bl`, in an array with room for them. */
  method PutWords(nv0: array<Option<string>>, el0: nat, vl: nat, bl: seq<string>, ghost ws: seq<string>)
      returns (nv: array<Option<string>>, el: nat)
    requires HoldsWords(nv0, el0, ws) && vl < el0 && |bl| >= 1
    modifies nv0
    ensures nv == nv0 || fresh(nv)
    ensures HoldsWords(nv, el, ws[..vl] + bl + ws[vl + 1..])
  {
    nv, el := nv0, el0;
    if |bl| == 1 {
      nv[vl] := Some(bl[0]);
      return;
    }
    nv := Grow(nv, el, |bl|, ws);
    Splice(nv, el, vl, bl, ws);
    el := el + |bl| - 1;
  }

  /** expbrace, on the words `ws` that `nv0` holds. */
  method ExpBrace(nv0: array<Option<string>>, el0: nat, ghost ws: seq<string>)
      returns (error: Option<Missing>, nv: array<Option<string>>, el: nat)
    requires HoldsWords(nv0, el0, ws)
    modifies nv0
    ensures nv == nv0 || fresh(nv)
    ensures match ExpandAll(ws)
            case Err(e) => error == Some(e)
            case Ok(us) => error == None && HoldsWords(nv, el, us)
  {
    nv, el := nv0, el0;
    var vl: int := 0;
    ghost var done, rest := [], ws;
    NothingBefore(ws);
    while nv[vl].Some?
      invariant nv == nv0 || fresh(nv)
      invariant HoldsWords(nv, el, done + rest) && vl == |done| <= el
      invariant ExpandAll(ws) == Before(done, ExpandAll(rest))
      decreases RoundsAll(rest)
    {
      ReadCell(nv, el, done, rest);
      var s := nv[vl].value;
      WorklistStep(rest);
      if s == "{" || s == "{}" || '{' !in s {           // left as it is
        vl := vl + 1;
        Settle(done, rest);
        done, rest := done + [s], rest[1..];
      } else {
        var bl := GlobBrace(s);
        if bl.Err? {
          return Some(bl.missing), nv, el;
        }
        FewerRounds(rest);
        Replaced(done, rest, bl.value);
        nv, el := PutWords(nv, el, vl, bl.value, done + rest);
        rest := bl.value + rest[1..];
      }
    }
    ReadCell(nv, el, done, rest);
    assert done + [] == done;
    error := None;
  }

  lemma ReadCell(nv: array<Option<string>>, el: nat, done: seq<string>, rest: seq<string>)
    requires HoldsWords(nv, el, done + rest)
    ensures nv[|done|] == if rest == [] then None else Some(rest[0])
  {
  }

  lemma NothingBefore(ws: seq<string>)
    ensures [] + ws == ws && forall r :: Before([], r) == r
  {
    forall r: Result<seq<string>> ensures Before([], r) == r {
      match r { case Err(e) => case Ok(us) => assert [] + us == us; }
    }
  }

  lemma Settle(done: seq<string>, rest: seq<string>)
    requires rest != []
    ensures done + rest == (done + [rest[0]]) + rest[1..]
    ensures forall r :: Before(done, Before([rest[0]], r)) == Before(done + [rest[0]], r)
  {
    forall r: Result<seq<string>> ensures Before(done, Before([rest[0]], r)) == Before(done + [rest[0]], r) {
      match r { case Err(e) => case Ok(us) => assert done + ([rest[0]] + us) == (done + [rest[0]]) + us; }
    }
  }

  lemma Replaced(done: seq<string>, rest: seq<string>, bl: seq<string>)
    requires rest != []
    ensures (done + rest)[..|done|] + bl + (done + rest)[|done| + 1..] == done + (bl + rest[1..])
  {
  }

  /** No open brace is left in an expansion, but in the words "{" and "{}". */
  lemma {:induction false} ExpandLeavesNone(w: string)
    ensures Expand(w).Ok? ==> forall x :: x in Expand(w).value ==> !Needs(x)
    decreases Opens(w)
  {
    if Needs(w) && Braced(w).Ok? {
      BracedFewer(w);
      ExpandStep(w);
      var ps := Braced(w).value;
      forall i | 0 <= i < |ps| ensures Expand(ps[i]).Ok? ==> forall x :: x in Expand(ps[i]).value ==> !Needs(x) {
        ExpandLeavesNone(ps[i]);
      }
      AllLeaveNone(ps);
    }
  }

  lemma {:induction false} AllLeaveNone(ws: seq<string>)
    requires forall i :: 0 <= i < |ws| ==> Expand(ws[i]).Ok? ==> forall x :: x in Expand(ws[i]).value ==> !Needs(x)
    ensures ExpandAll(ws).Ok? ==> forall x :: x in ExpandAll(ws).value ==> !Needs(x)
    decreases |ws|
  {
    if ws != [] {
      AllLeaveNone(ws[1..]);
    }
  }
}
