/**
  Pattern matching of the C shell: pmatch and Gmatch (usr/src/bin/csh/glob.c).

  `Lang` is the language of a pattern, by its syntax alone.  `PMatch` and `GMatch` say
  what the code answers, errors and reads past the terminator included, and the methods
  are the code's loops.
 */
module Matching {
  import opened Numbers
  import opened Braces

  const NUL: char := '\0'

  /** A character without its quote bit, the sixteenth. */
  function Trim(c: char): char {
    (c as int % 0x8000) as char
  }

  /** A C string: no character that the code would take for the terminator. */
  predicate IsText(s: string) {
    forall i :: 0 <= i < |s| ==> Trim(s[i]) != NUL
  }

  // ----- The language of a pattern

  /** Whether the class text p[k..e] admits `c`; a "-" between two characters is a range. */
  predicate InClass(p: string, k: nat, e: nat, c: char)
    requires 1 <= k && e <= |p|
    decreases e - k
  {
    if k >= e then false
    else if p[k] == '-' && p[k - 1] != '[' && k + 1 < e then
      Trim(p[k - 1]) <= c <= Trim(p[k + 1]) || InClass(p, k + 2, e, c)
    else
      c == Trim(p[k]) || InClass(p, k + 1, e, c)
  }

  /** Where the text of a class starts, behind [ or [^. */
  function ClassStart(p: string): nat {
    if |p| > 1 && p[1] == '^' then 2 else 1
  }

  /** The ] that ends the class at the start of p, or the length of p. */
  function ClassEnd(p: string): (e: nat)
    requires p != ""
    ensures ClassStart(p) <= e <= |p|
  {
    IndexFrom(p, ']', ClassStart(p))
  }

  predicate Negated(p: string) {
    ClassStart(p) == 2
  }

  /** Whether the class at the start of p admits a character of the string. */
  predicate Admits(p: string, c: char)
    requires p != ""
  {
    InClass(p, ClassStart(p), ClassEnd(p), c) != Negated(p)
  }

  /** The strings that a pattern of literals, ?, * and closed classes stands for. */
  ghost predicate Lang(p: string, s: string)
    decreases |p|
  {
    if p == "" then s == ""
    else if p[0] == '*' then exists k :: 0 <= k <= |s| && Lang(p[1..], s[k..])
    else if s == "" then false
    else if p[0] == '?' then Lang(p[1..], s[1..])
    else if p[0] == '[' then
      var e := ClassEnd(p);
      e < |p| && Admits(p, Trim(s[0])) && Lang(p[e + 1..], s[1..])
    else Trim(p[0]) == Trim(s[0]) && Lang(p[1..], s[1..])
  }

  /** The patterns for which the code has that reading: closed classes, and behind a * no brace and no ^. */
  predicate Readable(p: string)
    decreases |p|
  {
    if p == "" then true
    else if p[0] == '*' then
      '{' !in p && (|p| == 1 || p[1] != '^') && Readable(p[1..])
    else if p[0] == '[' then
      var e := ClassEnd(p);
      e < |p| && Readable(p[e + 1..])
    else Readable(p[1..])
  }

  // ----- How the code departs from it

  predicate AllStars(p: string) {
    forall i :: 0 <= i < |p| ==> p[i] == '*'
  }

  /** The pattern whose language the code accepts: two or more stars at the end want a character. */
  function Squeeze(p: string): string {
    if |p| >= 2 && AllStars(p) then "?*"
    else if p == "" then ""
    else [p[0]] + Squeeze(p[1..])
  }

  /**
    Following the pattern along the string, the code comes to a negated class at the end of the
    string; behind a * it takes the suffixes in turn, up to one in the language.
   */
  ghost predicate RunsOver(p: string, s: string)
    decreases |p|, |s|
  {
    if p == "" then false
    else if p[0] == '*' then
      s != "" && (RunsOver(p[1..], s) || (!Lang(Squeeze(p[1..]), s) && RunsOver(p, s[1..])))
    else if p[0] == '[' then
      var e := ClassEnd(p);
      if s == "" then Negated(p) else e < |p| && Admits(p, Trim(s[0])) && RunsOver(p[e + 1..], s[1..])
    else s != "" && (p[0] == '?' || Trim(p[0]) == Trim(s[0])) && RunsOver(p[1..], s[1..])
  }

  // ----- What the code answers

  datatype Answer =
    | Said(yes: bool)
    | Unbalanced(missing: Missing)
    | OpenClass                         // the error "Missing ]"
    | Overrun                           // a read past the terminator

  datatype Scan = Done(has: bool, next: nat) | Open | Past

  /** The loop over a class, from p[k] on, for the character `c` (NUL at the end of the string). */
  function ScanClass(p: string, k: nat, c: char, matched: bool): (r: Scan)
    requires 1 <= k
    ensures r.Done? ==> k < r.next <= |p|
    decreases |p| - k
  {
    if k >= |p| then Open
    else if p[k] == ']' then Done(matched, k + 1)
    else if matched then ScanClass(p, k + 1, c, true)
    else if p[k] == '-' && p[k - 1] != '[' && !(k + 1 < |p| && p[k + 1] == ']') then
      if k + 1 == |p| then Past
      else ScanClass(p, k + 2, c, Trim(p[k - 1]) <= c <= Trim(p[k + 1]))
    else ScanClass(p, k + 1, c, c == Trim(p[k]))
  }

  function Head(s: string): char {
    if s == "" then NUL else Trim(s[0])
  }

  /** One answer for a list of words: any, or the first error. */
  function AnyOf(answers: seq<Answer>): Answer {
    if answers == [] then Said(false)
    else if !answers[0].Said? then answers[0]
    else
      var rest := AnyOf(answers[1..]);
      if rest.Said? then Said(answers[0].yes || rest.yes) else rest
  }

  lemma BracedShorter(w: string)
    requires '{' in w && Braced(w).Ok?
    ensures forall i :: 0 <= i < |Braced(w).value| ==> |Braced(w).value[i]| < |w|
  {
    var a := IndexFrom(w, '{', 0);
    var b := Close(w, a + 1, 0).value;
    var alts := Alternatives(w, a + 1, a + 1, 0, b);
    AlternativesInside(w, a + 1, a + 1, 0, b);
    forall n | 0 <= n < |alts| ensures |w[..a] + alts[n] + w[b + 1..]| < |w| {
      assert alts[n] in alts;
    }
  }

  lemma {:induction false} ExpandShorter(w: string)
    ensures Expand(w).Ok? ==> forall i :: 0 <= i < |Expand(w).value| ==> |Expand(w).value[i]| <= |w|
    decreases Opens(w)
  {
    if Needs(w) && Braced(w).Ok? {
      BracedFewer(w);
      BracedShorter(w);
      ExpandStep(w);
      var ps := Braced(w).value;
      forall i | 0 <= i < |ps|
        ensures Expand(ps[i]).Ok? ==> forall j :: 0 <= j < |Expand(ps[i]).value| ==> |Expand(ps[i]).value[j]| <= |w|
      {
        ExpandShorter(ps[i]);
      }
      AllShorter(ps, |w|);
    }
  }

  lemma {:induction false} AllShorter(ws: seq<string>, n: nat)
    requires forall i :: 0 <= i < |ws| ==>
               Expand(ws[i]).Ok? ==> forall j :: 0 <= j < |Expand(ws[i]).value| ==> |Expand(ws[i]).value[j]| <= n
    ensures ExpandAll(ws).Ok? ==> forall i :: 0 <= i < |ExpandAll(ws).value| ==> |ExpandAll(ws).value[i]| <= n
    decreases |ws|
  {
    if ws != [] {
      AllShorter(ws[1..], n);
    }
  }

  function PMatch(s: string, p: string): Answer
    decreases |p|, 0, 0
  {
    if p == "" then Said(s == "")
    else if p[0] == '?' then
      if s == "" then Said(false) else PMatch(s[1..], p[1..])
    else if p[0] == '*' then
      if |p| == 1 then Said(true) else Suffixes(s, p[1..])
    else if p[0] == '[' then
      var negate := |p| > 1 && p[1] == '^';
      match ScanClass(p, if negate then 2 else 1, Head(s), false)
      case Open => OpenClass
      case Past => Overrun
      case Done(has, next) =>
        if has == negate then Said(false)
        else if s == "" then Overrun
        else PMatch(s[1..], p[next..])
    else if Trim(p[0]) != Head(s) then Said(false)
    else if s == "" then Overrun
    else PMatch(s[1..], p[1..])
  }

  /** The loop behind a *: every suffix but the empty one is tried. */
  function Suffixes(s: string, p: string): Answer
    decreases |p|, 3, |s|
  {
    if s == "" then Said(false)
    else
      var a := GMatch(s, p);
      if a == Said(false) then Suffixes(s[1..], p) else a
  }

  function Answers(s: string, ws: seq<string>, n: nat): (r: seq<Answer>)
    requires forall i :: 0 <= i < |ws| ==> |ws[i]| <= n
    ensures |r| == |ws| && forall i :: 0 <= i < |ws| ==> r[i] == PMatch(s, ws[i])
    decreases n, 1, 0
  {
    seq(|ws|, i requires 0 <= i < |ws| => PMatch(s, ws[i]))
  }

  function GMatch(s: string, p: string): Answer
    decreases |p|, 2, 0
  {
    var negate := p != "" && p[0] == '^';
    var q := if negate then p[1..] else p;
    match Expand(q)
    case Err(m) => Unbalanced(m)
    case Ok(ws) =>
      ExpandShorter(q);
      var a := AnyOf(Answers(s, ws, |q|));
      if a.Said? then Said(a.yes != negate) else a
  }

  /** A class that is not closed is an error, whatever the string. */
  lemma {:induction false} NotClosed(p: string, k: nat, c: char, matched: bool)
    requires 1 <= k && forall i :: k <= i < |p| ==> p[i] != ']' && p[i] != '-'
    ensures ScanClass(p, k, c, matched) == Open
    decreases |p| - k
  {
    if k < |p| {
      NotClosed(p, k + 1, c, matched || c == Trim(p[k]));
    }
  }

  lemma OpenClassError(s: string, x: string)
    requires ']' !in x && '-' !in x
    ensures PMatch(s, "[" + x) == OpenClass
  {
    var p := "[" + x;
    assert forall i :: 1 <= i < |p| ==> p[i] == x[i - 1];
    NotClosed(p, if |p| > 1 && p[1] == '^' then 2 else 1, Head(s), false);
  }

  lemma {:induction false} DashLast(p: string, k: nat, c: char, matched: bool)
    requires |p| > 2 && 1 <= k < |p| && p[|p| - 1] == '-'
    requires forall i :: 1 <= i < |p| - 1 ==> p[i] !in "[]-"
    ensures ScanClass(p, k, c, matched) ==
            if matched || exists i :: k <= i < |p| - 1 && Trim(p[i]) == c then Open else Past
    decreases |p| - k
  {
    if k < |p| - 1 {
      assert p[k] !in "[]-";
      DashLast(p, k + 1, c, matched || c == Trim(p[k]));
    } else {
      assert p[k - 1] !in "[]-";
    }
  }

  /** A pattern that ends in a dash runs over its end, unless the character was found before. */
  lemma OpenRange(s: string, x: string)
    requires x != "" && forall i :: 0 <= i < |x| ==> x[i] !in "[]-^"
    ensures PMatch(s, "[" + x + "-") ==
            if exists i :: 0 <= i < |x| && Trim(x[i]) == Head(s) then OpenClass else Overrun
  {
    var p := "[" + x + "-";
    assert forall i :: 0 <= i < |x| ==> p[i + 1] == x[i];
    assert p[1] !in "[]-^";
    DashLast(p, 1, Head(s), false);
  }

  // ----- The code's loops

  /** The loop over a class. */
  method MatchClass(p: string, k0: nat, c: char) returns (r: Scan)
    requires 1 <= k0
    ensures r == ScanClass(p, k0, c, false)
  {
    var k, has := k0, false;
    while k < |p|
      invariant k0 <= k && ScanClass(p, k0, c, false) == ScanClass(p, k, c, has)
      decreases |p| - k
    {
      var rangec := p[k];
      k := k + 1;
      if rangec == ']' {
        return Done(has, k);
      }
      if has {
        continue;
      }
      if rangec == '-' && p[k - 2] != '[' && !(k < |p| && p[k] == ']') {
        if k == |p| {
          return Past;
        }
        has := c <= Trim(p[k]) && Trim(p[k - 2]) <= c;
        k := k + 1;
      } else {
        has := c == Trim(rangec);
      }
    }
    return Open;
  }

  method Pmatch(s: string, p: string) returns (r: Answer)
    ensures r == PMatch(s, p)
    decreases |p|, 0
  {
    var i, k := 0, 0;
    while true
      invariant i <= |s| && k <= |p| && PMatch(s, p) == PMatch(s[i..], p[k..])
      decreases |p| - k
    {
      var at := k;
      assert i < |s| ==> s[i..][1..] == s[i + 1..];
      assert k < |p| ==> p[k..][1..] == p[k + 1..];
      var stringc := if i < |s| then Trim(s[i]) else NUL;
      if k == |p| {
        return Said(stringc == NUL && i == |s|);
      }
      var patternc := p[k];
      k := k + 1;
      if patternc == '?' {
        if i == |s| {
          return Said(false);
        }
      } else if patternc == '*' {
        if k == |p| {
          return Said(true);
        }
        r := TrySuffixes(s[i..], p[k..]);
        return;
      } else if patternc == '[' {
        var negate := k < |p| && p[k] == '^';
        var scan := MatchClass(p[at..], if negate then 2 else 1, stringc);
        match scan
        case Open => return OpenClass;
        case Past => return Overrun;
        case Done(has, next) =>
          if has == negate {
            return Said(false);
          }
          assert p[at..][next..] == p[at + next..];
          k := at + next;
      } else if Trim(patternc) != stringc {
        return Said(false);
      }
      if i == |s| {
        return Overrun;
      }
      i := i + 1;
    }
  }

  /** The loop behind a *. */
  method TrySuffixes(s: string, p: string) returns (r: Answer)
    ensures r == Suffixes(s, p)
    decreases |p|, 3
  {
    var i := 0;
    while i < |s|
      invariant i <= |s| && Suffixes(s, p) == Suffixes(s[i..], p)
    {
      var a := Gmatch(s[i..], p);
      if a != Said(false) {
        return a;
      }
      assert s[i..][1..] == s[i + 1..];
      i := i + 1;
    }
    return Said(false);
  }

  lemma CellWord(nv: array<Option<string>>, el: nat, ws: seq<string>, at: nat)
    requires HoldsWords(nv, el, ws) && at <= el
    ensures nv[at] == if at < |ws| then Some(ws[at]) else None
  {
  }

  /** The loop of Gmatch over the words of its pattern. */
  method AnyWord(s: string, nv: array<Option<string>>, el: nat, ghost ws: seq<string>, ghost answers: seq<Answer>,
                 ghost n: nat)
      returns (r: Answer)
    requires HoldsWords(nv, el, ws) && |answers| == |ws|
    requires forall i :: 0 <= i < |ws| ==> |ws[i]| <= n && answers[i] == PMatch(s, ws[i])
    ensures r == AnyOf(answers)
    decreases n, 1
  {
    var yes, at := false, 0;
    assert answers[0..] == answers;
    CellWord(nv, el, ws, 0);
    while nv[at].Some?
      invariant at <= el && nv[at] == if at < |ws| then Some(ws[at]) else None
      invariant AnyOf(answers) == Onto(yes, AnyOf(answers[at..]))
      decreases el - at
    {
      var a := Pmatch(s, nv[at].value);
      assert answers[at..][0] == a && answers[at..][1..] == answers[at + 1..];
      if !a.Said? {
        return a;
      }
      yes := yes || a.yes;
      at := at + 1;
      CellWord(nv, el, ws, at);
    }
    return Said(yes);
  }

  method Gmatch(s: string, p: string) returns (r: Answer)
    ensures r == GMatch(s, p)
    decreases |p|, 2
  {
    var negate := p != "" && p[0] == '^';
    var q := if negate then p[1..] else p;
    var blk := new Option<string>[GLOBSPACE](_ => None);
    blk[0] := Some(q);
    var error, nv, el := ExpBrace(blk, 1, [q]);
    OneWord(q);
    if error.Some? {
      return Unbalanced(error.value);
    }
    ghost var ws := Expand(q).value;
    ExpandShorter(q);
    var a := AnyWord(s, nv, el, ws, Answers(s, ws, |q|), |q|);
    if !a.Said? {
      return a;
    }
    return Said(a.yes != negate);
  }

  /** An answer in the light of an earlier one. */
  function Onto(yes: bool, a: Answer): Answer {
    if a.Said? then Said(yes || a.yes) else a
  }

  lemma OneWord(q: string)
    ensures ExpandAll([q]) == Expand(q)
  {
    match Expand(q) { case Err(m) => case Ok(us) => assert us + [] == us; }
  }

  // ----- The answers are the language

  lemma {:induction false} ScanIsInClass(p: string, k: nat, e: nat, c: char, matched: bool)
    requires 1 <= k <= e < |p| && p[e] == ']' && ']' !in p[k..e]
    ensures ScanClass(p, k, c, matched) == Done(matched || InClass(p, k, e, c), e + 1)
    decreases e - k
  {
    if k < e {
      assert p[k] in p[k..e] && p[k + 1..e] == p[k..e][1..];
      if !matched && p[k] == '-' && p[k - 1] != '[' && k + 1 < e {
        assert p[k + 1] in p[k..e] && p[k + 2..e] == p[k..e][2..];
        ScanIsInClass(p, k + 2, e, c, Trim(p[k - 1]) <= c <= Trim(p[k + 1]));
      } else {
        ScanIsInClass(p, k + 1, e, c, matched || c == Trim(p[k]));
      }
    }
  }

  /** The terminator is in no class. */
  lemma {:induction false} ClassLacksNul(p: string, k: nat, e: nat)
    requires IsText(p) && 1 <= k && e <= |p|
    ensures !InClass(p, k, e, NUL)
    decreases e - k
  {
    if k < e {
      ClassLacksNul(p, k + 1, e);
      if k + 1 < e {
        ClassLacksNul(p, k + 2, e);
      }
    }
  }

  /** Brace-free patterns are one word to Gmatch. */
  lemma GMatchPlain(s: string, p: string)
    requires '{' !in p && !(p != "" && p[0] == '^')
    ensures GMatch(s, p) == PMatch(s, p)
  {
    var one := Answers(s, [p], |p|);
    assert one == [PMatch(s, p)] && AnyOf(one[1..]) == Said(false);
    assert Expand(p) == Ok([p]);
  }

  /** Only stars match the empty string. */
  lemma {:induction false} LangOfEmpty(p: string)
    ensures Lang(p, "") <==> AllStars(p)
    decreases |p|
  {
    if p != "" && p[0] == '*' {
      LangOfEmpty(p[1..]);
      assert ""[0..] == "";
      if Lang(p, "") {
        var k :| 0 <= k <= |""| && Lang(p[1..], ""[k..]);
        assert ""[k..] == "";
      }
    }
  }

  /** pmatch runs over, or says yes exactly if the string is in the language of the squeezed pattern. */
  ghost predicate Says(s: string, p: string) {
    PMatch(s, p) == if RunsOver(p, s) then Overrun else Said(Lang(Squeeze(p), s))
  }

  lemma SomeSuffix(q: string, s: string)
    requires s != ""
    ensures (exists k :: 0 <= k < |s| && Lang(q, s[k..]))
            <==> Lang(q, s) || exists k :: 0 <= k < |s[1..]| && Lang(q, s[1..][k..])
  {
    var t := s[1..];
    assert s[0..] == s;
    if k :| 0 <= k < |t| && Lang(q, t[k..]) {
      assert t[k..] == s[k + 1..];
    }
    if k :| 0 <= k < |s| && Lang(q, s[k..]) {
      assert k > 0 ==> s[k..] == t[k - 1..];
    }
  }

  /** The loop behind a * answers for the first suffix that is not rejected, the empty one aside. */
  lemma {:induction false} SuffixesFind(s: string, p: string)
    requires '{' !in p && !(p != "" && p[0] == '^')
    requires forall k :: 0 <= k < |s| ==> Says(s[k..], p)
    ensures Suffixes(s, p) ==
            if RunsOver("*" + p, s) then Overrun else Said(exists k :: 0 <= k < |s| && Lang(Squeeze(p), s[k..]))
    decreases |s|
  {
    assert ("*" + p)[1..] == p;
    if s != "" {
      var t := s[1..];
      GMatchPlain(s, p);
      assert s[0..] == s;
      forall k | 0 <= k < |t| ensures Says(t[k..], p) {
        assert t[k..] == s[k + 1..];
      }
      SuffixesFind(t, p);
      SomeSuffix(Squeeze(p), s);
    }
  }

  lemma {:induction false} StarsDontRunOver(p: string, s: string)
    requires AllStars(p)
    ensures !RunsOver(p, s)
    decreases |p|, |s|
  {
    if p != "" && s != "" {
      StarsDontRunOver(p[1..], s);
      StarsDontRunOver(p, s[1..]);
    }
  }

  /** Squeezing a pattern does not reach into its first class. */
  lemma {:induction false} SqueezePast(p: string, e: nat)
    requires e < |p| && p[e] != '*'
    ensures Squeeze(p) == p[..e + 1] + Squeeze(p[e + 1..])
    decreases |p|
  {
    if e == 0 {
      assert p[..1] == [p[0]];
    } else {
      SqueezePast(p[1..], e - 1);
      assert p[1..][e..] == p[e + 1..] && p[..e + 1] == [p[0]] + p[1..][..e];
    }
  }

  lemma {:induction false} InClassLocal(p: string, q: string, k: nat, e: nat, c: char)
    requires 1 <= k && e <= |p| && e <= |q| && p[..e] == q[..e]
    ensures InClass(p, k, e, c) == InClass(q, k, e, c)
    decreases e - k
  {
    if k < e {
      assert forall i :: 0 <= i < e ==> p[i] == p[..e][i] == q[i];
      InClassLocal(p, q, k + 1, e, c);
      if k + 1 < e {
        InClassLocal(p, q, k + 2, e, c);
      }
    }
  }

  lemma IndexLocal(p: string, q: string, c: char, k: nat, e: nat)
    requires k <= e < |p| && e < |q| && p[..e + 1] == q[..e + 1] && IndexFrom(p, c, k) == e
    ensures IndexFrom(q, c, k) == e
    decreases e - k
  {
    assert forall i :: 0 <= i <= e ==> p[i] == p[..e + 1][i] == q[i];
    if k < e {
      IndexLocal(p, q, c, k + 1, e);
    }
  }

  lemma {:induction false} SqueezeStars(p: string)
    requires !AllStars(p)
    ensures !AllStars(Squeeze(p))
    decreases |p|
  {
    if p[0] == '*' {
      var i :| 0 <= i < |p| && p[i] != '*';
      assert p[1..][i - 1] == p[i];
      SqueezeStars(p[1..]);
      assert Squeeze(p)[1..] == Squeeze(p[1..]);
    } else {
      assert Squeeze(p)[0] == p[0];
    }
  }

  lemma StarLang(s: string)
    ensures Lang("*", s) && (Lang("?*", s) <==> s != "")
  {
    assert s[|s|..] == "" && Lang("*"[1..], s[|s|..]);
    if s != "" {
      assert "?*"[1..] == "*";
      assert s[1..][|s[1..]|..] == "" && Lang("*"[1..], s[1..][|s[1..]|..]);
    }
  }

  lemma StarsSqueezed(rest: string)
    requires rest != "" && AllStars(rest)
    ensures AllStars("*" + rest) && Squeeze("*" + rest) == "?*" && Squeeze(rest) in {"*", "?*"}
  {
    assert AllStars("*" + rest) && ("*" + rest)[1..] == rest;
    if |rest| == 1 {
      assert rest == "*" && rest[1..] == "" && Squeeze(rest) == "*";
    }
  }

  lemma StarsBehindStar(s: string, rest: string)
    requires rest != "" && AllStars(rest)
    ensures Squeeze("*" + rest) == "?*" && !RunsOver("*" + rest, s)
    ensures (exists k :: 0 <= k < |s| && Lang(Squeeze(rest), s[k..])) <==> Lang("?*", s)
  {
    var q := Squeeze(rest);
    StarsSqueezed(rest);
    StarsDontRunOver("*" + rest, s);
    StarLang(s);
    if s != "" {
      StarLang(s[0..]);
      assert Lang(q, s[0..]);
    }
  }

  lemma ItemsBehindStar(s: string, rest: string)
    requires !AllStars(rest)
    ensures Squeeze("*" + rest) == "*" + Squeeze(rest)
    ensures (exists k :: 0 <= k < |s| && Lang(Squeeze(rest), s[k..])) <==> Lang("*" + Squeeze(rest), s)
  {
    var p, q := "*" + rest, Squeeze(rest);
    var i :| 0 <= i < |rest| && rest[i] != '*';
    assert p[i + 1] == rest[i] && p[1..] == rest && ("*" + q)[1..] == q;
    SqueezeStars(rest);
    LangOfEmpty(q);
    assert s[|s|..] == "";
  }

  lemma StarCase(s: string, rest: string)
    requires rest != "" && '{' !in rest && rest[0] != '^' && forall k :: 0 <= k < |s| ==> Says(s[k..], rest)
    ensures Suffixes(s, rest) == if RunsOver("*" + rest, s) then Overrun else Said(Lang(Squeeze("*" + rest), s))
  {
    SuffixesFind(s, rest);
    if AllStars(rest) {
      StarsBehindStar(s, rest);
    } else {
      ItemsBehindStar(s, rest);
    }
  }

  lemma ClassCase(s: string, p: string)
    requires IsText(s) && IsText(p) && p != "" && p[0] == '[' && ClassEnd(p) < |p|
    requires s != "" && Admits(p, Trim(s[0])) ==> Says(s[1..], p[ClassEnd(p) + 1..])
    ensures Says(s, p)
  {
    var k, e := ClassStart(p), ClassEnd(p);
    ScanIsInClass(p, k, e, Head(s), false);
    if s == "" {
      ClassLacksNul(p, k, e);
      SqueezePast(p, e);
    } else {
      SqueezeKeepsClass(p, Trim(s[0]));
    }
  }

  /** The first class of a pattern is untouched by squeezing. */
  lemma SqueezeKeepsClass(p: string, c: char)
    requires p != "" && p[0] == '[' && ClassEnd(p) < |p|
    ensures var q := Squeeze(p);
            && q != "" && q[0] == '[' && Negated(q) == Negated(p) && ClassEnd(q) == ClassEnd(p) < |q|
            && Admits(q, c) == Admits(p, c) && q[ClassEnd(p) + 1..] == Squeeze(p[ClassEnd(p) + 1..])
  {
    var k, e, q := ClassStart(p), ClassEnd(p), Squeeze(p);
    SqueezePast(p, e);
    assert q[..e + 1] == p[..e + 1] && q[e + 1..] == Squeeze(p[e + 1..]);
    assert forall i :: 0 <= i <= e ==> q[i] == q[..e + 1][i] == p[i];
    IndexLocal(p, q, ']', k, e);
    assert p[..e] == p[..e + 1][..e] == q[..e];
    InClassLocal(p, q, k, e, c);
  }

  /**
    pmatch says yes exactly for the strings of the (squeezed) pattern's language, except that it
    reads on behind the end of the string when it comes to a negated class there.
   */
  lemma {:induction false} PMatchIsLang(s: string, p: string)
    requires IsText(s) && IsText(p) && Readable(p)
    ensures Says(s, p)
    decreases |p|, 1
  {
    if p == "" {
    } else if p[0] == '*' {
      SuffixesRead(s, p);
      StarReads(s, p);
    } else if p[0] == '[' {
      if s != "" && Admits(p, Trim(s[0])) {
        PMatchIsLang(s[1..], p[ClassEnd(p) + 1..]);
      }
      ClassCase(s, p);
    } else {
      if s != "" && (p[0] == '?' || Trim(p[0]) == Trim(s[0])) {
        PMatchIsLang(s[1..], p[1..]);
      }
      OneCharCase(s, p);
    }
  }

  lemma {:induction false} SuffixesRead(s: string, p: string)
    requires IsText(s) && IsText(p) && Readable(p) && p != "" && p[0] == '*'
    ensures forall k :: 0 <= k < |s| ==> Says(s[k..], p[1..])
    decreases |p|, 0
  {
    forall k | 0 <= k < |s| ensures Says(s[k..], p[1..]) {
      PMatchIsLang(s[k..], p[1..]);
    }
  }

  lemma StarReads(s: string, p: string)
    requires p != "" && p[0] == '*' && '{' !in p && (|p| == 1 || p[1] != '^')
    requires forall k :: 0 <= k < |s| ==> Says(s[k..], p[1..])
    ensures Says(s, p)
  {
    if |p| == 1 {
      assert p == "*" && Squeeze("*") == "*";
      StarsDontRunOver(p, s);
      StarLang(s);
    } else {
      StarCase(s, p[1..]);
      assert p == "*" + p[1..];
    }
  }

  lemma OneCharCase(s: string, p: string)
    requires IsText(s) && IsText(p) && p != "" && p[0] != '*' && p[0] != '['
    requires s != "" && (p[0] == '?' || Trim(p[0]) == Trim(s[0])) ==> Says(s[1..], p[1..])
    ensures Says(s, p)
  {
    assert Squeeze(p)[0] == p[0] && Squeeze(p)[1..] == Squeeze(p[1..]);
  }

  /** A negated class at the end of the string makes the code read past the terminator. */
  lemma NegatedAtEnd(p: string)
    requires IsText(p) && p != "" && p[0] == '[' && Negated(p) && ClassEnd(p) < |p|
    ensures PMatch("", p) == Overrun && RunsOver(p, "") && !Lang(p, "")
  {
    ScanIsInClass(p, 2, ClassEnd(p), NUL, false);
    ClassLacksNul(p, 1, ClassEnd(p));
    ClassLacksNul(p, 2, ClassEnd(p));
  }

  // ----- Two stars at the end

  predicate EndsInTwoStars(p: string) {
    |p| >= 2 && p[|p| - 1] == '*' && p[|p| - 2] == '*'
  }

  /** A pattern that does not end in two stars is its own squeezed form. */
  lemma {:induction false} SqueezeSame(p: string)
    requires !EndsInTwoStars(p)
    ensures Squeeze(p) == p
    decreases |p|
  {
    if p != "" {
      SqueezeSame(p[1..]);
      assert p == [p[0]] + p[1..];
    }
  }

  /** What stands behind the first item of a pattern. */
  function Rest(p: string): (r: string)
    requires p != ""
    ensures |r| < |p|
  {
    if p[0] == '[' && ClassEnd(p) < |p| then p[ClassEnd(p) + 1..] else p[1..]
  }

  /** A character of the class at the start of p. */
  predicate IsMember(p: string, c: char)
    requires p != ""
  {
    Trim(c) != NUL && Admits(p, Trim(c))
  }

  ghost predicate HasMember(p: string)
    requires p != ""
  {
    exists c :: IsMember(p, c)
  }

  /** Every class has a member. */
  ghost predicate AllHaveMembers(p: string)
    decreases |p|
  {
    p != "" ==> (p[0] == '[' ==> HasMember(p)) && AllHaveMembers(Rest(p))
  }

  // ----- Which patterns can run over

  predicate StartsNegated(p: string) {
    p != "" && p[0] == '[' && Negated(p)
  }

  /** On some string with a character left, the code comes to a negated class at the end. */
  ghost predicate RunsOverLater(p: string)
    decreases |p|
  {
    if p == "" then false
    else if p[0] == '*' then RunsOverLater(p[1..])
    else (p[0] == '[' ==> HasMember(p)) && (StartsNegated(Rest(p)) || RunsOverLater(Rest(p)))
  }

  /** A negated class that is not directly behind a star is reached through classes with members. */
  ghost predicate CanRunOver(p: string) {
    StartsNegated(p) || RunsOverLater(p)
  }

  lemma RunsOverRest(p: string, s: string)
    requires Readable(p) && p != "" && p[0] != '*' && s != ""
    ensures RunsOver(p, s) <==>
            && (if p[0] == '[' then Admits(p, Trim(s[0])) else p[0] == '?' || Trim(p[0]) == Trim(s[0]))
            && RunsOver(Rest(p), s[1..])
    ensures Readable(Rest(p))
  {
  }

  lemma {:induction false} RunsOverOnlyIf(p: string, s: string)
    requires IsText(s) && Readable(p) && RunsOver(p, s)
    ensures if s == "" then StartsNegated(p) else RunsOverLater(p)
    decreases |p|, |s|
  {
    if s != "" {
      TextFrom(s, 1);
      if p[0] == '*' {
        if RunsOver(p[1..], s) {
          RunsOverOnlyIf(p[1..], s);
        } else {
          RunsOverOnlyIf(p, s[1..]);
        }
      } else {
        RunsOverRest(p, s);
        assert p[0] == '[' ==> IsMember(p, s[0]);
        RunsOverOnlyIf(Rest(p), s[1..]);
      }
    }
  }

  /** A character that the first item admits. */
  ghost function Pick(p: string): (c: char)
    requires p != "" && p[0] != '*' && (p[0] == '[' ==> HasMember(p)) && IsText(p)
    ensures Trim(c) != NUL && (p[0] == '[' ==> Admits(p, Trim(c))) && (p[0] != '[' ==> c == p[0])
  {
    if p[0] == '[' then var c :| IsMember(p, c); c else p[0]
  }

  lemma {:induction false} RunsOverIf(p: string) returns (s: string)
    requires IsText(p) && Readable(p) && RunsOverLater(p)
    ensures IsText(s) && s != "" && RunsOver(p, s)
    decreases |p|
  {
    TextFrom(p, |p| - |Rest(p)|);
    if p[0] == '*' {
      s := RunsOverIf(p[1..]);
    } else {
      var r := "";
      if !StartsNegated(Rest(p)) {
        r := RunsOverIf(Rest(p));
      }
      s := [Pick(p)] + r;
      assert s[1..] == r;
      TextCons(Pick(p), r);
      RunsOverRest(p, s);
    }
  }

  /** Some string makes the code read past its terminator exactly for these patterns. */
  lemma OverrunExactly(p: string)
    requires IsText(p) && Readable(p)
    ensures (exists s :: IsText(s) && PMatch(s, p) == Overrun) <==> CanRunOver(p)
  {
    if s :| IsText(s) && PMatch(s, p) == Overrun {
      PMatchIsLang(s, p);
      RunsOverOnlyIf(p, s);
    }
    if StartsNegated(p) {
      NegatedAtEnd(p);
      assert IsText("");
    } else if RunsOverLater(p) {
      var s := RunsOverIf(p);
      PMatchIsLang(s, p);
    }
  }

  /** The characters that a string of the language has at least. */
  function Fewest(p: string): nat
    decreases |p|
  {
    if p == "" then 0 else Fewest(Rest(p)) + if p[0] == '*' then 0 else 1
  }

  /** A string of the language with no more than that. */
  ghost function Shortest(p: string): (s: string)
    requires IsText(p) && Readable(p) && AllHaveMembers(p)
    ensures |s| == Fewest(p)
    decreases |p|
  {
    if p == "" then ""
    else
      assert IsText(Rest(p)) by { TextFrom(p, |p| - |Rest(p)|); }
      if p[0] == '*' then Shortest(Rest(p)) else [Pick(p)] + Shortest(Rest(p))
  }

  lemma {:induction false} LangHasFewest(p: string, s: string)
    requires Lang(p, s)
    ensures |s| >= Fewest(p)
    decreases |p|
  {
    if p != "" {
      if p[0] == '*' {
        var k :| 0 <= k <= |s| && Lang(p[1..], s[k..]);
        LangHasFewest(p[1..], s[k..]);
      } else {
        LangHasFewest(Rest(p), s[1..]);
      }
    }
  }

  lemma {:induction false} ShortestInLang(p: string)
    requires IsText(p) && Readable(p) && AllHaveMembers(p)
    ensures Lang(p, Shortest(p)) && IsText(Shortest(p))
    decreases |p|
  {
    if p != "" {
      TextFrom(p, |p| - |Rest(p)|);
      ShortestInLang(Rest(p));
      if p[0] == '*' {
        StarTakesNothing(p, Shortest(p));
      } else {
        TextCons(Pick(p), Shortest(Rest(p)));
        OneMore(p, Shortest(p), Shortest(Rest(p)));
      }
    }
  }

  lemma TextFrom(p: string, k: nat)
    requires IsText(p) && k <= |p|
    ensures IsText(p[k..])
  {
  }

  lemma TextCons(c: char, s: string)
    requires Trim(c) != NUL && IsText(s)
    ensures IsText([c] + s)
  {
  }

  lemma StarTakesNothing(p: string, s: string)
    requires p != "" && p[0] == '*' && Lang(p[1..], s)
    ensures Lang(p, s)
  {
    assert s[0..] == s;
    assert Lang(p[1..], s[0..]);
  }

  /** A character that the first item admits before a string of the rest. */
  lemma OneMore(p: string, s: string, r: string)
    requires IsText(p) && Readable(p) && p != "" && p[0] != '*' && (p[0] == '[' ==> HasMember(p))
    requires Lang(Rest(p), r) && s == [Pick(p)] + r
    ensures Lang(p, s)
  {
    assert s[1..] == r;
  }

  lemma {:induction false} StarsHaveNoFewest(p: string)
    requires AllStars(p)
    ensures Fewest(p) == 0
    decreases |p|
  {
    if p != "" {
      StarsHaveNoFewest(p[1..]);
    }
  }

  lemma EndStays(p: string)
    requires Readable(p) && EndsInTwoStars(p) && !AllStars(p)
    ensures Readable(Rest(p)) && EndsInTwoStars(Rest(p))
  {
    if p[0] == '*' {
      assert |p| > 2;
    } else if p[0] == '[' {
      assert p[ClassEnd(p)] == ']';
    }
  }

  /** Squeezing two stars at the end asks for one character more. */
  lemma {:induction false} SqueezeAsksMore(p: string)
    requires Readable(p) && EndsInTwoStars(p)
    ensures Fewest(Squeeze(p)) == Fewest(p) + 1
    decreases |p|
  {
    var q := Squeeze(p);
    if AllStars(p) {
      StarsHaveNoFewest(p);
      assert q == "?*" && "?*"[1..] == "*" && "*"[1..] == "";
    } else {
      EndStays(p);
      SqueezeAsksMore(Rest(p));
      if p[0] == '[' {
        SqueezeKeepsClass(p, NUL);
      } else {
        assert q[0] == p[0] && q[1..] == Squeeze(p[1..]);
      }
      assert Rest(q) == Squeeze(Rest(p)) && q[0] == p[0];
    }
  }

  /** A pattern with a class without members matches nothing, squeezed or not. */
  lemma {:induction false} EmptyClassMatchesNothing(p: string, s: string)
    requires IsText(s) && Readable(p) && !AllHaveMembers(p)
    ensures !Lang(p, s)
    decreases |p|
  {
    if p[0] == '*' {
      forall k | 0 <= k <= |s| ensures !Lang(p[1..], s[k..]) {
        TextFrom(s, k);
        EmptyClassMatchesNothing(p[1..], s[k..]);
      }
    } else if s != "" {
      TextFrom(s, 1);
      if p[0] == '[' && !HasMember(p) {
        assert !IsMember(p, s[0]);
      } else {
        EmptyClassMatchesNothing(Rest(p), s[1..]);
      }
    }
  }

  lemma {:induction false} SqueezeKeepsEmptyClass(p: string, s: string)
    requires IsText(s) && Readable(p) && !AllHaveMembers(p)
    ensures !Lang(Squeeze(p), s)
    decreases |p|
  {
    var q := Squeeze(p);
    if s != "" {
      TextFrom(s, 1);
    }
    if p[0] == '[' {
      SqueezeKeepsClass(p, if s == "" then NUL else Trim(s[0]));
      if s != "" {
        if HasMember(p) {
          SqueezeKeepsEmptyClass(Rest(p), s[1..]);
        } else {
          assert !IsMember(p, s[0]);
        }
      }
    } else {
      StarsHaveNoClass(p);
      assert q[0] == p[0] && q[1..] == Squeeze(p[1..]);
      if p[0] == '*' {
        forall k | 0 <= k <= |s| ensures !Lang(q[1..], s[k..]) {
          TextFrom(s, k);
          SqueezeKeepsEmptyClass(p[1..], s[k..]);
        }
      } else if s != "" {
        SqueezeKeepsEmptyClass(p[1..], s[1..]);
      }
    }
  }

  lemma {:induction false} StarsHaveNoClass(p: string)
    ensures AllStars(p) ==> AllHaveMembers(p)
    decreases |p|
  {
    if p != "" {
      StarsHaveNoClass(p[1..]);
    }
  }

  /** The code and the language agree on every string. */
  ghost predicate Agrees(p: string) {
    forall s | IsText(s) :: PMatch(s, p) == Said(Lang(p, s))
  }

  lemma StarsDiffer(p: string)
    requires IsText(p) && Readable(p) && EndsInTwoStars(p) && AllHaveMembers(p)
    ensures Lang(p, Shortest(p)) && !Lang(Squeeze(p), Shortest(p)) && IsText(Shortest(p))
  {
    ShortestInLang(p);
    SqueezeAsksMore(p);
    if Lang(Squeeze(p), Shortest(p)) {
      LangHasFewest(Squeeze(p), Shortest(p));
    }
  }

  /** Squeezing makes no difference to a pattern that does not end in two stars, or matches nothing. */
  lemma SameSqueezed(p: string, s: string)
    requires IsText(s) && Readable(p) && !(EndsInTwoStars(p) && AllHaveMembers(p))
    ensures Lang(Squeeze(p), s) == Lang(p, s)
  {
    if EndsInTwoStars(p) {
      EmptyClassMatchesNothing(p, s);
      SqueezeKeepsEmptyClass(p, s);
    } else {
      SqueezeSame(p);
    }
  }

  /**
    The code answers for the language on every string exactly for the patterns that cannot run
    over and that do not end in two stars, unless they match nothing.
   */
  lemma AgreesExactly(p: string)
    requires IsText(p) && Readable(p)
    ensures Agrees(p) <==> !CanRunOver(p) && !(EndsInTwoStars(p) && AllHaveMembers(p))
  {
    OverrunExactly(p);
    if CanRunOver(p) {
      var s :| IsText(s) && PMatch(s, p) == Overrun;
    } else if EndsInTwoStars(p) && AllHaveMembers(p) {
      StarsDiffer(p);
      PMatchIsLang(Shortest(p), p);
      assert PMatch(Shortest(p), p) != Said(Lang(p, Shortest(p)));
    } else {
      forall s | IsText(s) ensures PMatch(s, p) == Said(Lang(p, s)) {
        PMatchIsLang(s, p);
        SameSqueezed(p, s);
      }
    }
  }

  /** The plainest case: the empty string is in the language of two stars, not in the answer. */
  lemma StarStar(s: string)
    ensures PMatch(s, "**") == Said(s != "") && Lang("**", s)
  {
    assert "**"[1..] == "*" && "*"[1..] == "" && s[0..] == s;
    GMatchPlain(s, "*");
    StarLang(s);
    assert Lang("**"[1..], s[0..]);
  }

  predicate SomeOverrun(answers: seq<Answer>) {
    exists i :: 0 <= i < |answers| && answers[i] == Overrun
  }

  predicate SomeYes(answers: seq<Answer>) {
    exists i :: 0 <= i < |answers| && answers[i] == Said(true)
  }

  lemma {:induction false} AnyOfAll(answers: seq<Answer>)
    requires forall i :: 0 <= i < |answers| ==> answers[i].Said? || answers[i] == Overrun
    ensures AnyOf(answers) == if SomeOverrun(answers) then Overrun else Said(SomeYes(answers))
  {
    if answers != [] {
      var rest := answers[1..];
      AnyOfAll(rest);
      assert forall i :: 0 < i < |answers| ==> answers[i] == rest[i - 1];
      assert forall i :: 0 <= i < |rest| ==> rest[i] == answers[i + 1];
    }
  }

  /**
    Gmatch says yes exactly when some word of the expanded pattern has the string, and with ^
    when none has; it runs over if it does for some word.
   */
  lemma GMatchIsLang(s: string, q: string, negate: bool)
    requires IsText(s) && Expand(q).Ok? && (!negate ==> !(q != "" && q[0] == '^'))
    requires forall i :: 0 <= i < |Expand(q).value| ==> IsText(Expand(q).value[i]) && Readable(Expand(q).value[i])
    ensures var ws := Expand(q).value;
            GMatch(s, if negate then "^" + q else q) ==
            if exists i :: 0 <= i < |ws| && RunsOver(ws[i], s) then Overrun
            else Said((exists i :: 0 <= i < |ws| && Lang(Squeeze(ws[i]), s)) != negate)
  {
    var ws := Expand(q).value;
    ExpandShorter(q);
    var answers := Answers(s, ws, |q|);
    forall i | 0 <= i < |ws|
      ensures answers[i] == if RunsOver(ws[i], s) then Overrun else Said(Lang(Squeeze(ws[i]), s))
    {
      PMatchIsLang(s, ws[i]);
    }
    AnyOfAll(answers);
    SameWords(s, ws, answers);
    assert ("^" + q)[1..] == q;
  }

  lemma SameWords(s: string, ws: seq<string>, answers: seq<Answer>)
    requires |answers| == |ws|
    requires forall i :: 0 <= i < |ws| ==>
               answers[i] == if RunsOver(ws[i], s) then Overrun else Said(Lang(Squeeze(ws[i]), s))
    ensures SomeOverrun(answers) <==> exists i :: 0 <= i < |ws| && RunsOver(ws[i], s)
    ensures !SomeOverrun(answers) ==> (SomeYes(answers) <==> exists i :: 0 <= i < |ws| && Lang(Squeeze(ws[i]), s))
  {
    if i :| 0 <= i < |ws| && RunsOver(ws[i], s) {
      assert answers[i] == Overrun;
    }
    if !SomeOverrun(answers) {
      if i :| 0 <= i < |ws| && Lang(Squeeze(ws[i]), s) {
        assert answers[i] == Said(true);
      }
    }
  }
}
