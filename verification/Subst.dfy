/**
  History substitution on words: the modifiers :s, :r, :e, :h, :t, :q and :x with their
  flags g and a (dosub, subword, domod and matchs of usr/src/bin/csh/lex.c).
 */
module Subst {
  newtype Char = x: int | 0 <= x < 0x10000

  const BUFSIZ: nat := 1024
  const QUOTE: Char := 0x8000
  const SLASH: Char := 47
  const DOT: Char := 46
  const BACKSLASH: Char := 92
  const AMPERSAND: Char := 38
  const SPACE: Char := 32
  const TAB: Char := 9

  type Word = seq<Char>

  datatype Modifier = Replace(lhs: Word, rhs: Word) | Root | Extension | Head | Tail | Quote | QuoteWords

  /**
    What subword answers: Overflow is the error "Substitution buffer overflow"; at Overrun the
    scan for a slash leaves the word, because the only slashes in it are quoted.
   */
  datatype Answer = Same | Did(word: Word) | Overflow | Overrun

  // ----- Specification

  predicate MatchAt(w: Word, p: nat, lhs: Word)
    requires p <= |w|
  {
    lhs <= w[p..]
  }

  /** The first place before the end where lhs matches, or the length of the word. */
  function FirstMatch(w: Word, from: nat, lhs: Word): (p: nat)
    requires from <= |w|
    ensures from <= p <= |w|
    ensures p < |w| ==> MatchAt(w, p, lhs)
    ensures forall q :: from <= q < p ==> !MatchAt(w, q, lhs)
    decreases |w| - from
  {
    if from == |w| || MatchAt(w, from, lhs) then from else FirstMatch(w, from + 1, lhs)
  }

  /** The right side with & standing for the left side and \& for &. */
  function Filled(rhs: Word, lhs: Word): Word {
    if rhs == [] then []
    else if rhs[0] == AMPERSAND then lhs + Filled(rhs[1..], lhs)
    else if rhs[0] == BACKSLASH && |rhs| > 1 && rhs[1] == AMPERSAND then [AMPERSAND] + Filled(rhs[2..], lhs)
    else [rhs[0]] + Filled(rhs[1..], lhs)
  }

  /** A text as a right side that stands for itself. */
  function Escaped(w: Word): Word {
    if w == [] then [] else EscapedChar(w[0]) + Escaped(w[1..])
  }

  function EscapedChar(c: Char): Word {
    if c == AMPERSAND then [BACKSLASH, AMPERSAND] else [c]
  }

  /** Every text can be substituted, whatever the left side. */
  lemma {:induction false} EscapedStandsForItself(w: Word, lhs: Word)
    ensures Filled(Escaped(w), lhs) == w
  {
    if w != [] {
      var rest := Escaped(w[1..]);
      EscapedStandsForItself(w[1..], lhs);
      assert [w[0]] + w[1..] == w;
      if w[0] == AMPERSAND {
        assert Escaped(w)[2..] == rest;
      } else {
        assert Escaped(w)[1..] == rest;
        assert rest != [] ==> rest[0] != AMPERSAND;
      }
    }
  }

  predicate EndsInBackslash(w: Word) {
    w != [] && w[|w| - 1] == BACKSLASH
  }

  /** The three cases of a right side. */
  lemma FilledFirst(c: Char, y: Word, lhs: Word)
    ensures c == AMPERSAND ==> Filled([c] + y, lhs) == lhs + Filled(y, lhs)
    ensures c != AMPERSAND && !(c == BACKSLASH && y != [] && y[0] == AMPERSAND) ==>
              Filled([c] + y, lhs) == [c] + Filled(y, lhs)
    ensures Filled([BACKSLASH, AMPERSAND] + y, lhs) == [AMPERSAND] + Filled(y, lhs)
  {
    assert ([c] + y)[1..] == y && ([BACKSLASH, AMPERSAND] + y)[2..] == y;
  }

  /** An escaped text has no & in front. */
  lemma EscapedStarts(u: Word, x: Word)
    requires u != []
    ensures Escaped(u) + x != [] && (Escaped(u) + x)[0] != AMPERSAND
  {
  }

  lemma EscapedFirst(u: Word, e: Word, v: Word, x: Word)
    requires u != [] && e == EscapedChar(u[0]) && v == Escaped(u[1..])
    ensures Escaped(u) + x == e + (v + x)
  {
    Concat3(e, v, x);
  }

  lemma Concat3(a: Word, b: Word, c: Word)
    ensures a + b + c == a + (b + c)
  {
  }

  /** What follows an escaped text is filled in by itself, unless a backslash takes the & behind it. */
  lemma {:induction false} FilledBehind(u: Word, x: Word, lhs: Word)
    requires EndsInBackslash(u) ==> x == [] || x[0] != AMPERSAND
    ensures Filled(Escaped(u) + x, lhs) == u + Filled(x, lhs)
    decreases |u|
  {
    if u == [] {
      assert Escaped(u) + x == x && u + Filled(x, lhs) == Filled(x, lhs);
    } else {
      var v, y := u[1..], Escaped(u[1..]) + x;
      FilledBehind(v, x, lhs);
      EscapedFirst(u, EscapedChar(u[0]), Escaped(v), x);
      assert u == [u[0]] + v;
      if v != [] {
        EscapedStarts(v, x);
      } else {
        assert y == x;
      }
      FilledFirst(u[0], y, lhs);
      Concat3([u[0]], v, Filled(x, lhs));
    }
  }

  /** A bare & stands for the left side, unless a backslash before it makes it an & of its own. */
  lemma AmpersandIsLeft(u: Word, v: Word, lhs: Word)
    ensures Filled(Escaped(u) + ([AMPERSAND] + Escaped(v)), lhs) ==
            if EndsInBackslash(u) then u[..|u| - 1] + ([AMPERSAND] + v) else u + (lhs + v)
  {
    var x := [AMPERSAND] + Escaped(v);
    EscapedStandsForItself(v, lhs);
    FilledFirst(AMPERSAND, Escaped(v), lhs);
    if EndsInBackslash(u) {
      var y := [BACKSLASH, AMPERSAND] + Escaped(v);
      EscapedLast(u);
      Concat3(Escaped(u[..|u| - 1]), [BACKSLASH], x);
      Concat3([BACKSLASH], [AMPERSAND], Escaped(v));
      assert [BACKSLASH] + [AMPERSAND] == [BACKSLASH, AMPERSAND];
      FilledBehind(u[..|u| - 1], y, lhs);
    } else {
      FilledBehind(u, x, lhs);
    }
  }

  lemma {:induction false} EscapedLast(u: Word)
    requires EndsInBackslash(u)
    ensures Escaped(u) == Escaped(u[..|u| - 1]) + [BACKSLASH]
  {
    if |u| > 1 {
      EscapedLast(u[1..]);
      assert u[1..][..|u| - 2] == u[..|u| - 1][1..];
    }
  }

  function Replaced(w: Word, lhs: Word, rhs: Word): Answer {
    var p := FirstMatch(w, 0, lhs);
    if p == |w| then Same
    else
      var r := w[..p] + Filled(rhs, lhs) + w[p + |lhs|..];
      if |r| <= BUFSIZ - 4 then Did(r) else Overflow
  }

  /** The last place of c in the first n characters, or -1. */
  function LastOf(w: Word, c: Char, n: nat): (p: int)
    requires n <= |w|
    ensures -1 <= p < n
    ensures p >= 0 ==> w[p] == c
    ensures forall q :: p < q < n ==> w[q] != c
  {
    if n == 0 then -1 else if w[n - 1] == c then n - 1 else LastOf(w, c, n - 1)
  }

  /** A slash in the word, quoted or not. */
  predicate HasSlash(w: Word) {
    exists i :: 0 <= i < |w| && w[i] % 256 == SLASH
  }

  /** The dot that starts the extension of the last component, or -1. */
  function LastDot(w: Word): (p: int)
    ensures -1 <= p < |w|
  {
    var d := LastOf(w, DOT, |w|);
    if d > LastOf(w, SLASH, |w|) then d else -1
  }

  function Quoted(c: Char, all: bool): Char {
    if ((c != SPACE && c != TAB) || all) && c < QUOTE then c + QUOTE else c
  }

  function Modified(w: Word, m: Modifier): Answer {
    match m
    case Replace(lhs, rhs) => Replaced(w, lhs, rhs)
    case Root => Did(if LastDot(w) < 0 then w else w[..LastDot(w)])
    case Extension => Did(if LastDot(w) < 0 then [] else w[LastDot(w) + 1..])
    case Head =>
      if !HasSlash(w) then Same
      else if SLASH in w then Did(w[..LastOf(w, SLASH, |w|)]) else Overrun
    case Tail =>
      if !HasSlash(w) then Did(w)
      else if SLASH in w then Did(w[LastOf(w, SLASH, |w|) + 1..]) else Overrun
    case Quote => Did(seq(|w|, i requires 0 <= i < |w| => Quoted(w[i], true)))
    case QuoteWords => Did(seq(|w|, i requires 0 <= i < |w| => Quoted(w[i], false)))
  }

  // ----- Repeating a substitution

  /** The word read as a number, a digit for each character. */
  function Number(w: Word): nat {
    if w == [] then 0 else Number(w[..|w| - 1]) * 0x10000 + w[|w| - 1] as int
  }

  function Power(n: nat): (p: nat)
    ensures p > 0
  {
    if n == 0 then 1 else Power(n - 1) * 0x10000
  }

  lemma {:induction false} NumberBelow(w: Word)
    ensures Number(w) < Power(|w|)
  {
    if w != [] {
      NumberBelow(w[..|w| - 1]);
    }
  }

  lemma OneMoreDigit(a: nat, p: nat, b: nat, c: nat)
    ensures (a * p + b) * 0x10000 + c == a * (p * 0x10000) + (b * 0x10000 + c)
  {
  }

  lemma {:induction false} NumberConcat(u: Word, v: Word)
    ensures Number(u + v) == Number(u) * Power(|v|) + Number(v)
  {
    if v == [] {
      assert u + v == u;
    } else {
      var v' := v[..|v| - 1];
      NumberConcat(u, v');
      assert (u + v)[..|u + v| - 1] == u + v';
      OneMoreDigit(Number(u), Power(|v'|), Number(v'), v[|v'|] as int);
    }
  }

  lemma ScaleOrder(a: nat, b: nat, p: nat)
    requires a < b && p > 0
    ensures a * p < b * p
  {
  }

  lemma PrefixOrder(u: Word, x: Word, y: Word)
    requires |x| == |y| && Number(x) < Number(y)
    ensures Number(u + x) < Number(u + y)
  {
    NumberConcat(u, x);
    NumberConcat(u, y);
  }

  /** Changing the middle of a word, in place, moves its number the way the middle's moves. */
  lemma MiddleOrder(u: Word, x: Word, y: Word, v: Word)
    requires |x| == |y| && Number(x) < Number(y)
    ensures Number(u + x + v) < Number(u + y + v)
  {
    PrefixOrder(u, x, y);
    NumberConcat(u + x, v);
    NumberConcat(u + y, v);
    ScaleOrder(Number(u + x), Number(u + y), Power(|v|));
  }

  lemma {:induction false} NumberInjective(x: Word, y: Word)
    requires |x| == |y| && Number(x) == Number(y)
    ensures x == y
  {
    if x != [] {
      NumberInjective(x[..|x| - 1], y[..|y| - 1]);
      assert x == x[..|x| - 1] + [x[|x| - 1]];
      assert y == y[..|y| - 1] + [y[|y| - 1]];
    }
  }

  function Unquoted(w: Word): nat {
    if w == [] then 0 else Unquoted(w[1..]) + (if w[0] < QUOTE then 1 else 0)
  }

  /** What every further substitution that changes the word uses up. */
  ghost function Budget(w: Word, m: Modifier): nat {
    match m
    case Replace(lhs, rhs) =>
      var r := Filled(rhs, lhs);
      if |r| < |lhs| then |w|
      else if |r| > |lhs| then if |w| <= BUFSIZ then BUFSIZ - |w| else 0
      else if Number(r) < Number(lhs) then Number(w)
      else
        NumberBelow(w);
        Power(|w|) - Number(w)
    case Quote => Unquoted(w)
    case QuoteWords => Unquoted(w)
    case _ => |w|
  }

  lemma EqualLength(w: Word, w': Word, u: Word, lhs: Word, r: Word, v: Word)
    requires w == u + lhs + v && w' == u + r + v && |r| == |lhs| && w' != w
    ensures if Number(r) < Number(lhs) then Number(w') < Number(w) else Number(w) < Number(w') < Power(|w|)
  {
    if Number(r) < Number(lhs) {
      MiddleOrder(u, r, lhs, v);
    } else if Number(r) > Number(lhs) {
      MiddleOrder(u, lhs, r, v);
      NumberBelow(w');
    } else {
      NumberInjective(r, lhs);
    }
  }

  lemma ReplaceUsesBudget(w: Word, lhs: Word, rhs: Word)
    requires Replaced(w, lhs, rhs).Did? && Replaced(w, lhs, rhs).word != w
    ensures Budget(Replaced(w, lhs, rhs).word, Replace(lhs, rhs)) < Budget(w, Replace(lhs, rhs))
  {
    var p, r := FirstMatch(w, 0, lhs), Filled(rhs, lhs);
    if |r| == |lhs| {
      assert w == w[..p] + lhs + w[p + |lhs|..];
      EqualLength(w, Replaced(w, lhs, rhs).word, w[..p], lhs, r, w[p + |lhs|..]);
    }
  }

  lemma {:induction false} QuoteUsesBudget(w: Word, w': Word, all: bool)
    requires |w'| == |w| && (forall i :: 0 <= i < |w| ==> w'[i] == Quoted(w[i], all))
    ensures Unquoted(w') <= Unquoted(w) && (w' != w ==> Unquoted(w') < Unquoted(w))
  {
    if w != [] {
      QuoteUsesBudget(w[1..], w'[1..], all);
      assert w == [w[0]] + w[1..] && w' == [w'[0]] + w'[1..];
    }
  }

  lemma UsesBudget(w: Word, m: Modifier)
    requires Modified(w, m).Did? && Modified(w, m).word != w
    ensures Budget(Modified(w, m).word, m) < Budget(w, m)
  {
    match m
    case Replace(lhs, rhs) => ReplaceUsesBudget(w, lhs, rhs);
    case Quote => QuoteUsesBudget(w, Modified(w, m).word, true);
    case QuoteWords => QuoteUsesBudget(w, Modified(w, m).word, false);
    case _ => CutShortens(w, m);
  }

  lemma CutShortens(w: Word, m: Modifier)
    requires m in {Root, Extension, Head, Tail} && Modified(w, m).Did? && Modified(w, m).word != w
    ensures |Modified(w, m).word| < |w|
  {
  }

  /** The substitution applied until it fails, changes nothing or overflows. */
  function Repeated(w: Word, m: Modifier): (r: Answer)
    ensures r != Same
    ensures r.Did? ==> Modified(r.word, m) == Same || Modified(r.word, m) == Did(r.word)
    decreases Budget(w, m)
  {
    match Modified(w, m)
    case Same => Did(w)
    case Did(w') =>
      if w' == w then Did(w)
      else
        UsesBudget(w, m);
        Repeated(w', m)
    case a => a
  }

  /** After :as no match of the left side is left, unless the substitution puts it there itself. */
  lemma ReplacedAway(w: Word, lhs: Word, rhs: Word)
    requires Repeated(w, Replace(lhs, rhs)).Did?
    ensures var r := Repeated(w, Replace(lhs, rhs)).word;
            Filled(rhs, lhs) == lhs || forall q :: 0 <= q < |r| ==> !MatchAt(r, q, lhs)
  {
    SettledHasNoMatch(Repeated(w, Replace(lhs, rhs)).word, lhs, rhs);
  }

  /** The left side is replaced where it first occurs, and nothing else changes. */
  lemma ReplacedThere(u: Word, v: Word, lhs: Word, rhs: Word)
    requires lhs + v != [] && forall q :: 0 <= q < |u| ==> !MatchAt(u + lhs + v, q, lhs)
    ensures var r := u + Filled(rhs, lhs) + v;
            Replaced(u + lhs + v, lhs, rhs) == if |r| <= BUFSIZ - 4 then Did(r) else Overflow
  {
    var w := u + lhs + v;
    assert w[|u|..] == lhs + v;
    assert MatchAt(w, |u|, lhs);
    assert FirstMatch(w, 0, lhs) == |u|;
    assert w[..|u|] == u && w[|u| + |lhs|..] == v;
  }

  /** Without a match there is nothing to do. */
  lemma NothingThere(w: Word, lhs: Word, rhs: Word)
    ensures Replaced(w, lhs, rhs) == Same <==> forall q :: 0 <= q < |w| ==> !MatchAt(w, q, lhs)
  {
  }

  /** :q sets the quote bit of every character, :x of all but blanks, and no other bit changes. */
  lemma QuotesBits(w: Word, i: nat)
    requires i < |w|
    ensures var q, x := Modified(w, Quote), Modified(w, QuoteWords);
            && q.Did? && |q.word| == |w| && q.word[i] >= QUOTE && q.word[i] % QUOTE == w[i] % QUOTE
            && x.Did? && |x.word| == |w| && x.word[i] == if w[i] in {SPACE, TAB} then w[i] else q.word[i]
  {
  }

  /** Without a slash :h does not apply, and :t keeps the word. */
  lemma NoSlash(w: Word)
    requires !HasSlash(w)
    ensures Modified(w, Head) == Same && Modified(w, Tail) == Did(w)
  {
  }

  /** :h and :t take a word apart at its last slash. */
  lemma HeadAndTail(w: Word)
    requires SLASH in w
    ensures var h, t := Modified(w, Head), Modified(w, Tail);
            h.Did? && t.Did? && h.word + [SLASH] + t.word == w && SLASH !in t.word
  {
    var i :| 0 <= i < |w| && w[i] == SLASH;
    assert w[i] % 256 == SLASH;
    var p := LastOf(w, SLASH, |w|);
    assert w == w[..p] + [w[p]] + w[p + 1..];
  }

  /** :r and :e take a word apart at the last dot of its last component, if there is one. */
  lemma RootAndExtension(w: Word)
    ensures var r, e := Modified(w, Root).word, Modified(w, Extension).word;
            if LastDot(w) < 0 then r == w && e == []
            else r + [DOT] + e == w && DOT !in e && SLASH !in e
  {
    var p := LastDot(w);
    if p >= 0 {
      assert w == w[..p] + [w[p]] + w[p + 1..];
    }
  }

  // ----- The code

  method Matchs(w: Word, from: nat, pat: Word) returns (r: bool)
    requires from <= |w|
    ensures r == MatchAt(w, from, pat)
  {
    var str, k := from, 0;
    while str < |w| && k < |pat| && w[str] == pat[k]
      invariant str == from + k <= |w| && k <= |pat| && pat[..k] == w[from..str]
    {
      str, k := str + 1, k + 1;
    }
    assert w[from..str] == w[from..][..k] && (str < |w| ==> w[str] == w[from..][k]);
    return k == |pat|;
  }

  /** The right side into the buffer, within what is left of it; false is an overflow. */
  method PutRight(rhs: Word, lhs: Word, wbuf: Word, left: int) returns (out: Word, i: int, ok: bool)
    ensures ok ==> out == wbuf + Filled(rhs, lhs) && i == left - |Filled(rhs, lhs)|
    ensures !ok ==> left < |Filled(rhs, lhs)|
  {
    out, i := wbuf, left;
    var np := 0;
    assert rhs[0..] == rhs;
    while np < |rhs|
      invariant np <= |rhs|
      invariant out + Filled(rhs[np..], lhs) == wbuf + Filled(rhs, lhs)
      invariant i == left - (|out| - |wbuf|)
    {
      if rhs[np] == AMPERSAND {
        i := i - |lhs|;
        if i < 0 {
          return out, i, false;
        }
        assert rhs[np..][1..] == rhs[np + 1..];
        assert out + (lhs + Filled(rhs[np + 1..], lhs)) == (out + lhs) + Filled(rhs[np + 1..], lhs);
        out := out + lhs;
      } else {
        ghost var at := np;
        if rhs[np] == BACKSLASH && np + 1 < |rhs| && rhs[np + 1] == AMPERSAND {
          np := np + 1;
        }
        i := i - 1;
        if i < 0 {
          return out, i, false;
        }
        assert rhs[at..][np + 1 - at..] == rhs[np + 1..];
        assert out + ([rhs[np]] + Filled(rhs[np + 1..], lhs)) == (out + [rhs[np]]) + Filled(rhs[np + 1..], lhs);
        out := out + [rhs[np]];
      }
      np := np + 1;
    }
    ok := true;
  }

  method ReplaceFirst(w: Word, lhs: Word, rhs: Word) returns (r: Answer)
    ensures r == Replaced(w, lhs, rhs)
  {
    var mp := 0;
    while mp < |w|
      invariant mp <= |w| && FirstMatch(w, 0, lhs) == FirstMatch(w, mp, lhs)
    {
      var hit := Matchs(w, mp, lhs);
      if hit {
        var wbuf, i, ok := PutRight(rhs, lhs, w[..mp], BUFSIZ - 4 - mp);
        if !ok {
          return Overflow;
        }
        i := i - (|w| - (mp + |lhs|));
        if i < 0 {
          return Overflow;
        }
        return Did(wbuf + w[mp + |lhs|..]);
      }
      mp := mp + 1;
    }
    return Same;
  }

  method DoMod(w: Word, m: Modifier) returns (r: Answer)
    requires !m.Replace?
    ensures r == Modified(w, m)
  {
    match m
    case Quote => r := QuoteAll(w, true);
    case QuoteWords => r := QuoteAll(w, false);
    case Head => r := AtSlash(w, true);
    case Tail => r := AtSlash(w, false);
    case Root => r := AtDot(w, true);
    case Extension => r := AtDot(w, false);
  }

  method QuoteAll(w: Word, all: bool) returns (r: Answer)
    ensures r == Modified(w, if all then Quote else QuoteWords)
  {
    var wp := w;
    var xp := 0;
    while xp < |wp|
      invariant xp <= |wp| == |w| && wp[xp..] == w[xp..]
      invariant forall i :: 0 <= i < xp ==> wp[i] == Quoted(w[i], all)
    {
      assert wp[xp] == wp[xp..][0] == w[xp];
      if (wp[xp] != SPACE && wp[xp] != TAB) || all {
        wp := wp[xp := if wp[xp] < QUOTE then wp[xp] + QUOTE else wp[xp]];
      }
      assert wp[xp + 1..] == w[xp + 1..];
      xp := xp + 1;
    }
    r := Did(wp);
    assert wp == Modified(w, if all then Quote else QuoteWords).word;
  }

  /** The scan back to the last unquoted slash, and to the start of the word without one. */
  method BackToSlash(w: Word) returns (wp: nat)
    ensures wp == LastOf(w, SLASH, |w|) + 1
  {
    wp := |w|;
    while wp > 0 && w[wp - 1] != SLASH
      invariant 0 <= wp <= |w| && LastOf(w, SLASH, |w|) == LastOf(w, SLASH, wp)
    {
      wp := wp - 1;
    }
  }

  method AtSlash(w: Word, head: bool) returns (r: Answer)
    ensures r == Modified(w, if head then Head else Tail)
  {
    if !HasSlash(w) {
      return if head then Same else Did(w);
    }
    var wp := BackToSlash(w);
    if wp == 0 {
      return Overrun;
    }
    r := if head then Did(w[..wp - 1]) else Did(w[wp..]);
  }

  method AtDot(w: Word, root: bool) returns (r: Answer)
    ensures r == Modified(w, if root then Root else Extension)
  {
    var wp := |w|;
    while wp > 0 && w[wp - 1] != SLASH
      invariant 0 <= wp <= |w|
      invariant LastOf(w, SLASH, |w|) == LastOf(w, SLASH, wp) && LastOf(w, DOT, |w|) == LastOf(w, DOT, wp)
    {
      if w[wp - 1] == DOT {
        return if root then Did(w[..wp - 1]) else Did(w[wp..]);
      }
      wp := wp - 1;
    }
    return Did(if root then w else []);
  }

  method SubWord(w: Word, m: Modifier) returns (r: Answer)
    ensures r == Modified(w, m)
  {
    if m.Replace? {
      r := ReplaceFirst(w, m.lhs, m.rhs);
    } else {
      r := DoMod(w, m);
    }
  }

  // ----- A list of words

  /** What becomes of one word: `over` if an overflow was reported. */
  datatype Step = Lost | Step(word: Word, did: bool, over: bool)

  function StepOf(w: Word, m: Modifier, all: bool): Step {
    match Modified(w, m)
    case Same => Step(w, false, false)
    case Overflow => Step([], false, true)
    case Overrun => Lost
    case Did(w') =>
      if !all then Step(w', true, false)
      else match Repeated(w', m)
        case Did(r) => Step(r, true, false)
        case Overrun => Lost
        case _ => Step([], true, true)
  }

  function Stepper(m: Modifier, all: bool): Word -> Step {
    w => StepOf(w, m, all)
  }

  datatype Result = Undefined | Done(words: seq<Word>, did: bool, over: bool)

  /** The words in turn: each one under g, else those up to and including the first that changed. */
  function Substituted(ws: seq<Word>, step: Word -> Step, global: bool, did: bool): Result {
    if ws == [] then Done([], did, false)
    else
      var s := if global || !did then step(ws[0]) else Step(ws[0], false, false);
      if s.Lost? then Undefined
      else match Substituted(ws[1..], step, global, did || s.did)
        case Undefined => Undefined
        case Done(rest, did', over) => Done([s.word] + rest, did', over || s.over)
  }

  function Onto(out: seq<Word>, over: bool, r: Result): Result {
    match r
    case Undefined => r
    case Done(words, did, over') => Done(out + words, did, over || over')
  }

  lemma OneStep(ws: seq<Word>, step: Word -> Step, global: bool, did: bool)
    requires ws != [] && (global || !did) && step(ws[0]).Step?
    ensures Substituted(ws, step, global, did) ==
            Onto([step(ws[0]).word], step(ws[0]).over, Substituted(ws[1..], step, global, did || step(ws[0]).did))
  {
  }

  predicate AllDefined(ws: seq<Word>, step: Word -> Step) {
    forall i :: 0 <= i < |ws| ==> step(ws[i]).Step?
  }

  function Words(ws: seq<Word>, step: Word -> Step): (r: seq<Word>)
    requires AllDefined(ws, step)
    ensures |r| == |ws| && forall i :: 0 <= i < |ws| ==> r[i] == step(ws[i]).word
  {
    seq(|ws|, i requires 0 <= i < |ws| => step(ws[i]).word)
  }

  lemma FirstOfWords(ws: seq<Word>, step: Word -> Step)
    requires ws != [] && AllDefined(ws, step)
    ensures AllDefined(ws[1..], step) && [step(ws[0]).word] + Words(ws[1..], step) == Words(ws, step)
  {
    assert forall i :: 0 <= i < |ws| - 1 ==> ws[1..][i] == ws[i + 1];
  }

  /** Once a word was changed without g, the rest is copied. */
  lemma {:induction false} RestCopied(ws: seq<Word>, step: Word -> Step)
    ensures Substituted(ws, step, false, true) == Done(ws, true, false)
  {
    if ws != [] {
      RestCopied(ws[1..], step);
      assert [ws[0]] + ws[1..] == ws;
    }
  }

  /** What dosub leaves when the words up to j were tried and the others copied. */
  ghost predicate TriedUpTo(r: Result, ws: seq<Word>, step: Word -> Step, n: nat)
    requires n <= |ws| && AllDefined(ws[..n], step)
  {
    r.Done? && r.words == Words(ws[..n], step) + ws[n..]
  }

  lemma TriedOneMore(r: Result, ws: seq<Word>, step: Word -> Step, n: nat, over: bool)
    requires 0 < n <= |ws| && AllDefined(ws[..n], step) && AllDefined(ws[1..][..n - 1], step)
    requires TriedUpTo(r, ws[1..], step, n - 1)
    ensures TriedUpTo(Onto([step(ws[0]).word], over, r), ws, step, n)
  {
    FirstOfWords(ws[..n], step);
    assert ws[..n][1..] == ws[1..][..n - 1] && ws[..n][0] == ws[0] && ws[1..][n - 1..] == ws[n..];
  }

  /** Without g, the first word that the modifier applies to is changed, and none behind it. */
  lemma {:induction false} OnlyTheFirst(ws: seq<Word>, step: Word -> Step, j: nat)
    requires j < |ws| && AllDefined(ws[..j + 1], step)
    requires step(ws[j]).did && forall i :: 0 <= i < j ==> !step(ws[i]).did
    ensures Substituted(ws, step, false, false).Done? && Substituted(ws, step, false, false).did
    ensures TriedUpTo(Substituted(ws, step, false, false), ws, step, j + 1)
  {
    assert ws[..j + 1][0] == ws[0] && ws[..j + 1][j] == ws[j];
    assert forall i :: 0 <= i < j ==> ws[1..][..j][i] == ws[..j + 1][i + 1];
    OneStep(ws, step, false, false);
    var tail := Substituted(ws[1..], step, false, step(ws[0]).did);
    if j == 0 {
      RestCopied(ws[1..], step);
      assert Words(ws[1..][..0], step) + ws[1..] == ws[1..];
    } else {
      OnlyTheFirst(ws[1..], step, j - 1);
    }
    TriedOneMore(tail, ws, step, j + 1, step(ws[0]).over);
  }

  predicate SomeDid(ws: seq<Word>, step: Word -> Step) {
    exists i :: 0 <= i < |ws| && step(ws[i]).Step? && step(ws[i]).did
  }

  predicate SomeOver(ws: seq<Word>, step: Word -> Step) {
    exists i :: 0 <= i < |ws| && step(ws[i]).Step? && step(ws[i]).over
  }

  lemma FirstOrRest(ws: seq<Word>, step: Word -> Step)
    requires ws != [] && step(ws[0]).Step?
    ensures SomeDid(ws, step) <==> step(ws[0]).did || SomeDid(ws[1..], step)
    ensures SomeOver(ws, step) <==> step(ws[0]).over || SomeOver(ws[1..], step)
  {
    assert forall i :: 1 <= i < |ws| ==> ws[i] == ws[1..][i - 1];
    assert forall i :: 0 <= i < |ws| - 1 ==> ws[1..][i] == ws[i + 1];
  }

  /** With g, or when it applies to none of them, the modifier is tried on every word. */
  lemma {:induction false} EveryWord(ws: seq<Word>, step: Word -> Step, global: bool, did: bool)
    requires AllDefined(ws, step) && (global || (!did && !SomeDid(ws, step)))
    ensures Substituted(ws, step, global, did)
            == Done(Words(ws, step), did || SomeDid(ws, step), SomeOver(ws, step))
  {
    if ws != [] {
      FirstOfWords(ws, step);
      FirstOrRest(ws, step);
      OneStep(ws, step, global, did);
      EveryWord(ws[1..], step, global, did || step(ws[0]).did);
    }
  }

  /** A word that a modifier does not apply to, and that did not overflow, is left as it was. */
  lemma StepKeeps(w: Word, m: Modifier, all: bool)
    ensures var s := StepOf(w, m, all);
            s.Step? && !s.did && !s.over ==> s.word == w
  {
  }

  lemma DefinedUpTo(ws: seq<Word>, step: Word -> Step, n: nat)
    requires n <= |ws| && forall i :: 0 <= i < n ==> step(ws[i]).Step?
    ensures AllDefined(ws[..n], step)
  {
  }

  lemma OneWordOf(ws: seq<Word>, step: Word -> Step, j: nat)
    requires j < |ws| && step(ws[j]).Step? && step(ws[j]).did
    requires forall i :: 0 <= i < j ==> step(ws[i]).Step? && !step(ws[i]).did && step(ws[i]).word == ws[i]
    ensures Substituted(ws, step, false, false).Done? && Substituted(ws, step, false, false).did
    ensures Substituted(ws, step, false, false).words == ws[j := step(ws[j]).word]
  {
    DefinedUpTo(ws, step, j + 1);
    OnlyTheFirst(ws, step, j);
    WordsButOne(ws, step, j);
  }

  lemma WordsButOne(ws: seq<Word>, step: Word -> Step, j: nat)
    requires j < |ws| && AllDefined(ws[..j + 1], step)
    requires forall i :: 0 <= i < j ==> step(ws[i]).Step? && step(ws[i]).word == ws[i]
    ensures step(ws[j]).Step? && Words(ws[..j + 1], step) + ws[j + 1..] == ws[j := step(ws[j]).word]
  {
    assert ws[..j + 1][j] == ws[j];
    var r := Words(ws[..j + 1], step);
    forall i | 0 <= i <= j ensures r[i] == ws[j := step(ws[j]).word][i] {
      assert ws[..j + 1][i] == ws[i];
    }
  }

  /** Without g and without an overflow before it, the first word a modifier applies to is all that changes. */
  lemma OneWordChanges(ws: seq<Word>, m: Modifier, all: bool, j: nat)
    requires j < |ws| && StepOf(ws[j], m, all).Step? && StepOf(ws[j], m, all).did
    requires forall i :: 0 <= i < j ==>
               StepOf(ws[i], m, all).Step? && !StepOf(ws[i], m, all).did && !StepOf(ws[i], m, all).over
    ensures var r := Substituted(ws, Stepper(m, all), false, false);
            r.Done? && r.did && r.words == ws[j := StepOf(ws[j], m, all).word]
  {
    var step := Stepper(m, all);
    forall i | 0 <= i < j ensures step(ws[i]).Step? && !step(ws[i]).did && step(ws[i]).word == ws[i] {
      StepKeeps(ws[i], m, all);
    }
    OneWordOf(ws, step, j);
  }

  // ----- What dosub does to each word

  /** The modifier applied k times; where it does not apply it changes nothing. */
  function Applied(w: Word, m: Modifier, k: nat): Answer
    decreases k
  {
    if k == 0 then Did(w)
    else match Modified(w, m)
      case Same => Did(w)
      case Did(w') => Applied(w', m, k - 1)
      case a => a
  }

  /** The modifier no longer changes the word. */
  predicate Settled(w: Word, m: Modifier) {
    Modified(w, m) == Same || Modified(w, m) == Did(w)
  }

  lemma AppliedFirst(w: Word, w': Word, m: Modifier, k: nat)
    requires Modified(w, m) == Did(w')
    ensures Applied(w, m, k + 1) == Applied(w', m, k)
  {
  }

  lemma RepeatedFirst(w: Word, w': Word, m: Modifier)
    requires Modified(w, m) == Did(w')
    ensures w' == w ==> Repeated(w, m) == Did(w)
    ensures w' != w ==> Repeated(w, m) == Repeated(w', m) && Budget(w', m) < Budget(w, m)
  {
    if w' != w {
      UsesBudget(w, m);
    }
  }

  lemma OnceApplied(w: Word, m: Modifier)
    ensures Applied(w, m, 1) == if Modified(w, m) == Same then Did(w) else Modified(w, m)
  {
    assert forall w' :: Applied(w', m, 0) == Did(w');
  }

  /** Repeating comes to an end after some number of applications. */
  lemma {:induction false} RepeatedIsApplied(w: Word, m: Modifier) returns (k: nat)
    ensures Applied(w, m, k) == Repeated(w, m)
    decreases Budget(w, m)
  {
    if Modified(w, m).Did? {
      var w' := Modified(w, m).word;
      RepeatedFirst(w, w', m);
      if w' == w {
        k := 0;
      } else {
        var j := RepeatedIsApplied(w', m);
        AppliedFirst(w, w', m, j);
        k := j + 1;
      }
    } else {
      OnceApplied(w, m);
      k := 1;
    }
  }

  /** The word that an answer leaves. */
  predicate Leaves(a: Answer, w: Word) {
    a == Did(w) || (a == Overflow && w == [])
  }

  /** What is left of one word: one application, or under the flag a as many as it takes. */
  ghost predicate Becomes(w: Word, r: Word, m: Modifier, all: bool) {
    if all then Settled(r, m) && exists k :: Leaves(Applied(w, m, k), r)
    else Leaves(Applied(w, m, 1), r)
  }

  lemma EmptySettled(m: Modifier)
    ensures Settled([], m)
  {
  }

  /** A step of dosub on a word, from what the modifier makes of it. */
  lemma StepOnce(w: Word, m: Modifier)
    ensures var s := StepOf(w, m, false);
            && (s.Step? ==> Leaves(Applied(w, m, 1), s.word) && (s.did <==> Modified(w, m).Did?))
            && (s.Lost? <==> Modified(w, m) == Overrun)
  {
    OnceApplied(w, m);
  }

  lemma StepRepeats(w: Word, m: Modifier)
    ensures var s := StepOf(w, m, true);
            && (s.Step? ==> Becomes(w, s.word, m, true) && (s.did <==> Modified(w, m).Did?))
  {
    EmptySettled(m);
    OnceApplied(w, m);
    var s := StepOf(w, m, true);
    if Modified(w, m).Did? {
      var w' := Modified(w, m).word;
      var k := RepeatedIsApplied(w', m);
      AppliedFirst(w, w', m, k);
      assert s.Step? ==> Leaves(Applied(w, m, k + 1), s.word);
    } else {
      assert s.Step? ==> Leaves(Applied(w, m, 1), s.word);
    }
  }

  lemma StepBecomes(w: Word, m: Modifier, all: bool)
    ensures var s := StepOf(w, m, all);
            s.Step? ==> Becomes(w, s.word, m, all) && (s.did <==> Modified(w, m).Did?)
  {
    if all { StepRepeats(w, m); } else { StepOnce(w, m); }
  }

  /** Some word up to i was changed already. */
  predicate DidBefore(ws: seq<Word>, m: Modifier, i: nat)
    requires i <= |ws|
  {
    exists j :: 0 <= j < i && Modified(ws[j], m).Did?
  }

  /** The i-th word is tried: under g every one is, and else those up to the first that changed. */
  predicate Tried(ws: seq<Word>, m: Modifier, global: bool, did: bool, i: nat)
    requires i <= |ws|
  {
    global || !(did || DidBefore(ws, m, i))
  }

  /** The i-th word, if it was tried, has become what the modifier makes of it, and else is as it was. */
  ghost predicate WordDone(ws: seq<Word>, m: Modifier, all: bool, global: bool, did: bool, i: nat, r: Word)
    requires i < |ws|
  {
    if Tried(ws, m, global, did, i) then Becomes(ws[i], r, m, all) else r == ws[i]
  }

  lemma FirstThenRest(ws: seq<Word>, m: Modifier, all: bool, global: bool, did: bool, s: Step)
    requires ws != [] && s == if global || !did then StepOf(ws[0], m, all) else Step(ws[0], false, false)
    ensures var r := Substituted(ws, Stepper(m, all), global, did);
            if s.Lost? then r == Undefined
            else
              var rest := Substituted(ws[1..], Stepper(m, all), global, did || s.did);
              if rest.Undefined? then r == Undefined
              else r.Done? && r.words == [s.word] + rest.words && r.did == rest.did && r.over == (rest.over || s.over)
    ensures ws[1..] == [] && s.Step? ==> Substituted(ws[1..], Stepper(m, all), global, did || s.did).words == []
  {
  }

  lemma DidShift(ws: seq<Word>, m: Modifier, i: nat)
    requires 0 < i <= |ws|
    ensures DidBefore(ws, m, i) <==> Modified(ws[0], m).Did? || DidBefore(ws[1..], m, i - 1)
  {
    assert forall j :: 0 < j < i ==> ws[j] == ws[1..][j - 1];
    assert forall j :: 0 <= j < i - 1 ==> ws[1..][j] == ws[j + 1];
  }

  /**
    The words of the result, one by one: each one that was tried, which is every one under g
    and else every one up to the first that changed, has become what its modifier makes of it,
    and the others are as they were.
   */
  lemma {:induction false} EachWord(ws: seq<Word>, m: Modifier, all: bool, global: bool, did: bool, i: nat)
    requires i < |ws|
    ensures var r := Substituted(ws, Stepper(m, all), global, did);
            r.Done? ==> |r.words| == |ws| && WordDone(ws, m, all, global, did, i, r.words[i])
    decreases |ws|
  {
    var s := if global || !did then StepOf(ws[0], m, all) else Step(ws[0], false, false);
    FirstThenRest(ws, m, all, global, did, s);
    if s.Step? {
      var rest := Substituted(ws[1..], Stepper(m, all), global, did || s.did);
      if |ws| > 1 {
        EachWord(ws[1..], m, all, global, did || s.did, if i > 0 then i - 1 else 0);
      }
      if rest.Done? {
        WordAt(s.word, rest.words, i);
        if i == 0 {
          FirstDone(ws, m, all, global, did, s);
        } else {
          RestDone(ws, m, all, global, did, s, i, rest.words[i - 1]);
        }
      }
    }
  }

  lemma WordAt(w: Word, rest: seq<Word>, i: nat)
    requires i <= |rest|
    ensures ([w] + rest)[i] == if i == 0 then w else rest[i - 1]
  {
  }

  lemma FirstDone(ws: seq<Word>, m: Modifier, all: bool, global: bool, did: bool, s: Step)
    requires ws != [] && s.Step?
    requires s == if global || !did then StepOf(ws[0], m, all) else Step(ws[0], false, false)
    ensures WordDone(ws, m, all, global, did, 0, s.word)
  {
    StepBecomes(ws[0], m, all);
  }

  lemma RestDone(ws: seq<Word>, m: Modifier, all: bool, global: bool, did: bool, s: Step, i: nat, r: Word)
    requires 0 < i < |ws| && s.Step?
    requires s == if global || !did then StepOf(ws[0], m, all) else Step(ws[0], false, false)
    requires WordDone(ws[1..], m, all, global, did || s.did, i - 1, r)
    ensures WordDone(ws, m, all, global, did, i, r)
  {
    StepBecomes(ws[0], m, all);
    DidShift(ws, m, i);
  }

  /** The modifier fails if and only if it applies to no word. */
  lemma {:induction false} FailsExactly(ws: seq<Word>, m: Modifier, all: bool, global: bool, did: bool)
    ensures var r := Substituted(ws, Stepper(m, all), global, did);
            r.Done? ==> (r.did <==> did || DidBefore(ws, m, |ws|))
  {
    if ws != [] {
      var s := if global || !did then StepOf(ws[0], m, all) else Step(ws[0], false, false);
      StepBecomes(ws[0], m, all);
      FirstThenRest(ws, m, all, global, did, s);
      DidShift(ws, m, |ws|);
      if s.Step? {
        FailsExactly(ws[1..], m, all, global, did || s.did);
      }
    }
  }

  /** Substituting in the word overflows, at once or under the flag a after some applications. */
  ghost predicate Overflows(w: Word, m: Modifier, all: bool) {
    if all then exists k :: Applied(w, m, k) == Overflow else Modified(w, m) == Overflow
  }

  lemma {:induction false} OverflowRepeats(w: Word, m: Modifier, k: nat)
    requires Applied(w, m, k) == Overflow
    ensures Repeated(w, m) == Overflow
    decreases k
  {
    if Modified(w, m).Did? {
      RepeatedFirst(w, Modified(w, m).word, m);
      OverflowRepeats(Modified(w, m).word, m, k - 1);
    }
  }

  lemma RepeatOverflows(w: Word, m: Modifier)
    ensures Repeated(w, m) == Overflow <==> Overflows(w, m, true)
  {
    if k: nat :| Applied(w, m, k) == Overflow {
      OverflowRepeats(w, m, k);
    }
    var k := RepeatedIsApplied(w, m);
  }

  lemma StepOverflows(w: Word, m: Modifier, all: bool)
    ensures StepOf(w, m, all).Step? ==> (StepOf(w, m, all).over <==> Overflows(w, m, all))
  {
    if all {
      RepeatOverflows(w, m);
      if Modified(w, m).Did? {
        RepeatedFirst(w, Modified(w, m).word, m);
      }
    }
  }

  ghost predicate SomeOverflows(ws: seq<Word>, m: Modifier, all: bool, global: bool, did: bool) {
    exists i :: 0 <= i < |ws| && Tried(ws, m, global, did, i) && Overflows(ws[i], m, all)
  }

  lemma TriedShift(ws: seq<Word>, m: Modifier, all: bool, global: bool, did: bool, s: Step, i: nat)
    requires 0 < i < |ws| && s.Step?
    requires s == if global || !did then StepOf(ws[0], m, all) else Step(ws[0], false, false)
    ensures ws[1..][i - 1] == ws[i]
    ensures Tried(ws, m, global, did, i) <==> Tried(ws[1..], m, global, did || s.did, i - 1)
  {
    StepBecomes(ws[0], m, all);
    DidShift(ws, m, i);
  }

  lemma OverflowFirst(ws: seq<Word>, m: Modifier, all: bool, global: bool, did: bool, s: Step)
    requires ws != [] && s.Step?
    requires s == if global || !did then StepOf(ws[0], m, all) else Step(ws[0], false, false)
    ensures s.over <==> Tried(ws, m, global, did, 0) && Overflows(ws[0], m, all)
  {
    StepOverflows(ws[0], m, all);
  }

  lemma OverflowShift(ws: seq<Word>, m: Modifier, all: bool, global: bool, did: bool, s: Step)
    requires ws != [] && s.Step?
    requires s == if global || !did then StepOf(ws[0], m, all) else Step(ws[0], false, false)
    ensures SomeOverflows(ws, m, all, global, did) <==>
            s.over || SomeOverflows(ws[1..], m, all, global, did || s.did)
  {
    OverflowFirst(ws, m, all, global, did, s);
    if i :| 0 <= i < |ws| && Tried(ws, m, global, did, i) && Overflows(ws[i], m, all) {
      if i > 0 {
        TriedShift(ws, m, all, global, did, s, i);
      }
    }
    if i :| 0 <= i < |ws[1..]| && Tried(ws[1..], m, global, did || s.did, i) && Overflows(ws[1..][i], m, all) {
      TriedShift(ws, m, all, global, did, s, i + 1);
    }
  }

  /** An overflow is reported if and only if one of the words that are tried overflows. */
  lemma {:induction false} OverflowExactly(ws: seq<Word>, m: Modifier, all: bool, global: bool, did: bool)
    ensures var r := Substituted(ws, Stepper(m, all), global, did);
            r.Done? ==> (r.over <==> SomeOverflows(ws, m, all, global, did))
    decreases |ws|
  {
    if ws != [] {
      var s := if global || !did then StepOf(ws[0], m, all) else Step(ws[0], false, false);
      FirstThenRest(ws, m, all, global, did, s);
      if s.Step? {
        OverflowShift(ws, m, all, global, did, s);
        OverflowExactly(ws[1..], m, all, global, did || s.did);
      }
    }
  }

  /** Under the flag a no changed word would be changed again, and :as leaves no match of its left side. */
  lemma ChangedForGood(ws: seq<Word>, m: Modifier, global: bool, i: nat)
    requires i < |ws|
    ensures var r := Substituted(ws, Stepper(m, true), global, false);
            r.Done? && |r.words| == |ws| && r.words[i] != ws[i] ==>
              && Settled(r.words[i], m)
              && (m.Replace? && Filled(m.rhs, m.lhs) != m.lhs ==>
                    forall q :: 0 <= q < |r.words[i]| ==> !MatchAt(r.words[i], q, m.lhs))
  {
    EachWord(ws, m, true, global, false, i);
    var r := Substituted(ws, Stepper(m, true), global, false);
    if r.Done? && r.words[i] != ws[i] && m.Replace? {
      SettledHasNoMatch(r.words[i], m.lhs, m.rhs);
    }
  }

  lemma SettledHasNoMatch(r: Word, lhs: Word, rhs: Word)
    requires Settled(r, Replace(lhs, rhs))
    ensures Filled(rhs, lhs) == lhs || forall q :: 0 <= q < |r| ==> !MatchAt(r, q, lhs)
  {
    var p, filled := FirstMatch(r, 0, lhs), Filled(rhs, lhs);
    if p < |r| {
      assert r == r[..p] + filled + r[p + |lhs|..];
      assert |filled| == |lhs|;
      assert filled == r[p..p + |lhs|] == lhs;
    }
  }

  /** The loop of the flag a on a word that was changed once. */
  method Again(w: Word, m: Modifier) returns (r: Answer)
    ensures r == Repeated(w, m)
  {
    var tword := w;
    while true
      invariant Repeated(tword, m) == Repeated(w, m)
      decreases Budget(tword, m)
    {
      var otword := tword;
      var a := SubWord(otword, m);
      match a
      case Same => return Did(otword);
      case Overflow => return Overflow;
      case Overrun => return Overrun;
      case Did(word) =>
        tword := word;
        if tword == otword {
          return Did(otword);
        }
        UsesBudget(otword, m);
    }
  }

  method SubOne(w: Word, m: Modifier, all: bool) returns (s: Step)
    ensures s == StepOf(w, m, all)
  {
    var a := SubWord(w, m);
    var didone := a.Did?;
    if didone && all {
      a := Again(a.word, m);
    }
    match a
    case Same => return Step(w, false, false);
    case Did(word) => return Step(word, true, false);
    case Overflow => return Step([], didone, true);
    case Overrun => return Lost;
  }

  method DoSub(ws: seq<Word>, m: Modifier, global: bool, all: bool) returns (r: Result)
    ensures r == Substituted(ws, Stepper(m, all), global, false)
  {
    ghost var step := Stepper(m, all);
    var out, didsub, over := [], false, false;
    ghost var whole := Substituted(ws, step, global, false);
    assert ws[0..] == ws;
    OntoNothing(whole);
    for i := 0 to |ws|
      invariant whole == Onto(out, over, Substituted(ws[i..], step, global, didsub))
    {
      assert ws[i..][1..] == ws[i + 1..];
      var s := Step(ws[i], false, false);
      if global || !didsub {
        s := SubOne(ws[i], m, all);
        if s.Lost? {
          return Undefined;
        }
      }
      OntoStep(out, over, s.word, s.over, Substituted(ws[i + 1..], step, global, didsub || s.did));
      out, didsub, over := out + [s.word], didsub || s.did, over || s.over;
    }
    assert ws[|ws|..] == [] && out + [] == out;
    return Done(out, didsub, over);
  }

  lemma OntoNothing(r: Result)
    ensures Onto([], false, r) == r
  {
    if r.Done? {
      assert [] + r.words == r.words;
    }
  }

  lemma OntoStep(out: seq<Word>, over: bool, word: Word, over1: bool, r: Result)
    ensures r.Done? ==>
              Onto(out, over, Done([word] + r.words, r.did, r.over || over1)) == Onto(out + [word], over || over1, r)
  {
    if r.Done? {
      assert out + ([word] + r.words) == (out + [word]) + r.words;
    }
  }
}