/**
  The keywords of the configuration language (lookup of ifconfigctl/parse.c): each one is
  the token of its name, and the table is in order, as a binary search needs it.
 */
module ConfigKeywords {
  import opened Numbers
  import opened ConfigFiles
  import opened ConfigLexer
  import opened ConfigTokens
  import Token = ConfigGrammar

  // ----- Names

  /** yyname, from the token 257 on. */
  const YYNAMES: seq<string> := [
    "ERROR", "LISTEN", "ON", "TLS", "LDAPS", "PORT", "NAMESPACE", "ROOTDN", "ROOTPW", "INDEX",
    "SECURE", "RELAX", "STRICT", "SCHEMA", "USE", "COMPRESSION", "LEVEL", "INCLUDE",
    "CERTIFICATE", "FSYNC", "CACHE_SIZE", "INDEX_CACHE_SIZE", "DENY", "ALLOW", "READ",
    "WRITE", "BIND", "ACCESS", "TO", "ROOT", "REFERRAL", "ANY", "CHILDREN", "OF",
    "ATTRIBUTE", "IN", "SUBTREE", "BY", "SELF", "STRING", "NUMBER"]

  /** A letter in capitals, and a dash as an underscore. */
  function Capital(c: char): char {
    if 'a' <= c <= 'z' then c - 'a' + 'A' else if c == '-' then '_' else c
  }

  function Capitals(w: string): (n: string)
    ensures |n| == |w| && forall i :: 0 <= i < |w| ==> n[i] == Capital(w[i])
  {
    seq(|w|, i requires 0 <= i < |w| => Capital(w[i]))
  }

  predicate IsNamed(i: nat)
    requires i < |KEYWORDS|
  {
    var (word, token) := KEYWORDS[i];
    257 <= token < 257 + |YYNAMES| && Capitals(word) == YYNAMES[token - 257]
  }

  lemma NamesAToC(i: nat)
    requires i < 6
    ensures |KEYWORDS| == 37 && IsNamed(i)
  {
  }

  lemma NamesCToI(i: nat)
    requires 6 <= i < 12
    ensures |KEYWORDS| == 37 && IsNamed(i)
  {
  }

  lemma NamesIn(i: nat)
    requires 12 <= i < 15
    ensures |KEYWORDS| == 37 && IsNamed(i)
  {
  }

  lemma NamesL(i: nat)
    requires 15 <= i < 18
    ensures |KEYWORDS| == 37 && IsNamed(i)
  {
  }

  lemma NamesNToP(i: nat)
    requires 18 <= i < 22
    ensures |KEYWORDS| == 37 && IsNamed(i)
  {
  }

  lemma NamesR(i: nat)
    requires 22 <= i < 26
    ensures |KEYWORDS| == 37 && IsNamed(i)
  {
  }

  lemma NamesSToT(i: nat)
    requires 26 <= i < 32
    ensures |KEYWORDS| == 37 && IsNamed(i)
  {
  }

  lemma NamesTToW(i: nat)
    requires 32 <= i < 37
    ensures |KEYWORDS| == 37 && IsNamed(i)
  {
  }

  /** Every keyword, in capitals, is the name of its token. */
  lemma KeywordsNamed(i: nat)
    requires i < |KEYWORDS|
    ensures IsNamed(i)
  {
    if i < 6 { NamesAToC(i); } else if i < 12 { NamesCToI(i); } else if i < 15 { NamesIn(i); }
    else if i < 18 { NamesL(i); } else if i < 22 { NamesNToP(i); } else if i < 26 { NamesR(i); }
    else if i < 32 { NamesSToT(i); } else { NamesTToW(i); }
  }

  // ----- Order

  /** The order of strcmp: the words agree before k, and then the first one ends or has the smaller character. */
  predicate DiffersAt(a: string, b: string, k: nat) {
    k <= |a| && k < |b| && a[..k] == b[..k] && (k == |a| || a[k] < b[k])
  }

  predicate Less(a: string, b: string) {
    exists k :: 0 <= k <= |a| && DiffersAt(a, b, k)
  }

  lemma LessThrough(a: string, b: string, c: string)
    requires Less(a, b) && Less(b, c)
    ensures Less(a, c)
  {
    var j :| 0 <= j <= |a| && DiffersAt(a, b, j);
    var k :| 0 <= k <= |b| && DiffersAt(b, c, k);
    var n := if j < k then j else k;
    assert a[..n] == a[..j][..n] && b[..n] == b[..j][..n] == b[..k][..n] && c[..n] == c[..k][..n];
    assert j < k ==> c[j] == c[..k][j] == b[..k][j] == b[j];
    assert k < j ==> a[k] == a[..j][k] == b[..j][k] == b[k];
    assert DiffersAt(a, c, n);
  }

  lemma NotLess(a: string)
    ensures !Less(a, a)
  {
  }

  /** Where each keyword differs from the next. */
  const SPLITS: seq<nat> := [
    1, 1, 0, 1, 0, 1, 1, 1, 0, 0, 0, 2, 2, 5, 0, 1, 1, 0, 0, 1,
    0, 0, 2, 2, 1, 4, 4, 0, 1, 2, 1, 1, 0, 1, 0, 0]

  lemma AscendsLow(i: nat)
    requires i < 9
    ensures |KEYWORDS| == 37 && DiffersAt(KEYWORDS[i].0, KEYWORDS[i + 1].0, SPLITS[i])
  {
  }

  lemma AscendsToMiddle(i: nat)
    requires 9 <= i < 18
    ensures |KEYWORDS| == 37 && DiffersAt(KEYWORDS[i].0, KEYWORDS[i + 1].0, SPLITS[i])
  {
  }

  lemma AscendsFromMiddle(i: nat)
    requires 18 <= i < 27
    ensures |KEYWORDS| == 37 && DiffersAt(KEYWORDS[i].0, KEYWORDS[i + 1].0, SPLITS[i])
  {
  }

  lemma AscendsHigh(i: nat)
    requires 27 <= i < 36
    ensures |KEYWORDS| == 37 && DiffersAt(KEYWORDS[i].0, KEYWORDS[i + 1].0, SPLITS[i])
  {
  }

  /** The table is strictly ascending. */
  lemma {:induction false} Ascending(i: nat, j: nat)
    requires i < j < |KEYWORDS|
    ensures Less(KEYWORDS[i].0, KEYWORDS[j].0)
    decreases j
  {
    if j <= 9 { AscendsLow(j - 1); } else if j <= 18 { AscendsToMiddle(j - 1); }
    else if j <= 27 { AscendsFromMiddle(j - 1); } else { AscendsHigh(j - 1); }
    assert Less(KEYWORDS[j - 1].0, KEYWORDS[j].0);
    if i < j - 1 {
      Ascending(i, j - 1);
      LessThrough(KEYWORDS[i].0, KEYWORDS[j - 1].0, KEYWORDS[j].0);
    }
  }

  // ----- Looking up

  lemma {:induction false} SearchHits(w: string, i: nat, k: nat)
    requires i <= k < |KEYWORDS| && KEYWORDS[k].0 == w && forall j :: i <= j < k ==> KEYWORDS[j].0 != w
    ensures Search(w, i) == KEYWORDS[k].1
    decreases k - i
  {
    if i < k {
      SearchHits(w, i + 1, k);
    }
  }

  lemma {:induction false} SearchFails(w: string, i: nat)
    requires i <= |KEYWORDS| && forall j :: i <= j < |KEYWORDS| ==> KEYWORDS[j].0 != w
    ensures Search(w, i) == Token.STRING
    decreases |KEYWORDS| - i
  {
    if i < |KEYWORDS| {
      SearchFails(w, i + 1);
    }
  }

  /** A keyword is found, and a word that is none is a string. */
  lemma LookupExactly(w: string)
    ensures forall k :: 0 <= k < |KEYWORDS| && KEYWORDS[k].0 == w ==> Search(w, 0) == KEYWORDS[k].1
    ensures (forall k :: 0 <= k < |KEYWORDS| ==> KEYWORDS[k].0 != w) ==> Search(w, 0) == Token.STRING
  {
    forall k | 0 <= k < |KEYWORDS| && KEYWORDS[k].0 == w ensures Search(w, 0) == KEYWORDS[k].1 {
      forall j | 0 <= j < k ensures KEYWORDS[j].0 != w {
        Ascending(j, k);
        NotLess(w);
      }
      SearchHits(w, 0, k);
    }
    if forall k :: 0 <= k < |KEYWORDS| ==> KEYWORDS[k].0 != w {
      SearchFails(w, 0);
    }
  }

  /** bsearch, which compares by strcmp and halves the table: it finds what a search from the front finds. */
  method Bsearch(w: string) returns (token: int)
    ensures token == Search(w, 0)
  {
    LookupExactly(w);
    var lo, hi := 0, |KEYWORDS|;
    while lo < hi
      invariant 0 <= lo <= hi <= |KEYWORDS|
      invariant forall k :: 0 <= k < lo || hi <= k < |KEYWORDS| ==> KEYWORDS[k].0 != w
    {
      var mid := (lo + hi) / 2;
      var order := Strcmp(w, KEYWORDS[mid].0);
      if order == 0 {
        return KEYWORDS[mid].1;
      } else if order < 0 {
        forall k | mid <= k < |KEYWORDS| ensures KEYWORDS[k].0 != w {
          RightOf(w, mid, k);
        }
        hi := mid;
      } else {
        forall k | 0 <= k <= mid ensures KEYWORDS[k].0 != w {
          LeftOf(w, k, mid);
        }
        lo := mid + 1;
      }
    }
    token := Token.STRING;
  }

  lemma RightOf(w: string, mid: nat, k: nat)
    requires mid <= k < |KEYWORDS| && Less(w, KEYWORDS[mid].0)
    ensures KEYWORDS[k].0 != w
  {
    if mid < k {
      Ascending(mid, k);
      LessThrough(w, KEYWORDS[mid].0, KEYWORDS[k].0);
    }
    NotLess(w);
  }

  lemma LeftOf(w: string, k: nat, mid: nat)
    requires k <= mid < |KEYWORDS| && Less(KEYWORDS[mid].0, w)
    ensures KEYWORDS[k].0 != w
  {
    if k < mid {
      Ascending(k, mid);
      LessThrough(KEYWORDS[k].0, KEYWORDS[mid].0, w);
    }
    NotLess(w);
  }

  /** kw_cmp. */
  method Strcmp(a: string, b: string) returns (order: int)
    ensures order == 0 <==> a == b
    ensures order < 0 ==> Less(a, b)
    ensures order > 0 ==> Less(b, a)
  {
    var k := 0;
    while k < |a| && k < |b| && a[k] == b[k]
      invariant 0 <= k <= |a| && k <= |b| && a[..k] == b[..k]
    {
      k := k + 1;
    }
    if k == |a| && k == |b| {
      assert a == a[..k] && b == b[..k];
      return 0;
    }
    if k == |a| || (k < |b| && a[k] < b[k]) {
      assert DiffersAt(a, b, k);
      return -1;
    }
    assert DiffersAt(b, a, k);
    return 1;
  }

  // ----- Reading a keyword

  predicate IsKeywordChar(c: char) {
    'a' <= c <= 'z' || c == '-'
  }

  predicate IsPlainKeyword(w: string) {
    2 <= |w| <= 16 && w[0] != '-' && forall i :: 0 <= i < |w| ==> IsKeywordChar(w[i])
  }

  lemma PlainLow(i: nat)
    requires i < 18
    ensures |KEYWORDS| == 37 && IsPlainKeyword(KEYWORDS[i].0)
  {
  }

  lemma PlainHigh(i: nat)
    requires 18 <= i < 37
    ensures |KEYWORDS| == 37 && IsPlainKeyword(KEYWORDS[i].0)
  {
  }

  lemma KeywordIsWord(w: string)
    requires IsPlainKeyword(w)
    ensures IsWordText(Chars(w)) && Letters(Chars(w)) == w
  {
    var cs := Chars(w);
    forall i | 0 <= i < |cs| ensures AllowedInString(cs[i]) && 0 <= cs[i] < 128 {
      assert IsKeywordChar(w[i]);
    }
    assert IsKeywordChar(w[0]);
  }

  lemma NoKeywordIsString(i: nat)
    requires i < |KEYWORDS|
    ensures KEYWORDS[i].1 != Token.STRING
  {
  }

  /** A keyword with a blank, or anything else that cannot be in a word, behind it is read as its token. */
  lemma KeywordRead(s: State, i: nat, d: int, t: State, macros: Macros)
    requires s.files != [] && i < |KEYWORDS| && !AllowedInString(d) && ReadsAs(s, Chars(KEYWORDS[i].0) + [d], t)
    ensures Lex(s, macros) == Lexeme(KEYWORDS[i].1, None, Ungot(t, d), 0)
  {
    var w := KEYWORDS[i].0;
    if i < 18 { PlainLow(i); } else { PlainHigh(i); }
    KeywordIsWord(w);
    LookupExactly(w);
    NoKeywordIsString(i);
    WordRead(s, Chars(w), d, t, macros);
  }
}
