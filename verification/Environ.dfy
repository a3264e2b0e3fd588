/**
  The environment of the C shell, a list of words name=value (Setenv, Unsetenv and
  dounsetenv of usr/src/bin/csh/func.c).  Pattern matching on names is a parameter.
 */
module Environ {
  import opened Numbers

  // ----- Specification

  /** The first = of an entry, or its length. */
  function EqualsAt(e: string): (i: nat)
    ensures i <= |e| && (i < |e| ==> e[i] == '=')
    ensures forall k :: 0 <= k < i ==> e[k] != '='
  {
    if e == "" || e[0] == '=' then 0 else 1 + EqualsAt(e[1..])
  }

  function NameOf(e: string): string {
    e[..EqualsAt(e)]
  }

  predicate HasEquals(e: string) {
    EqualsAt(e) < |e|
  }

  /** A name that Setenv can be given back by NameOf. */
  predicate IsName(name: string) {
    forall k :: 0 <= k < |name| ==> name[k] != '='
  }

  /** The test of Setenv and Unsetenv. */
  predicate IsFor(e: string, name: string) {
    |name| < |e| && e[..|name|] == name && e[|name|] == '='
  }

  /** The first entry for a name, or the length of the list. */
  function Place(env: seq<string>, name: string): (i: nat)
    ensures i <= |env| && (i < |env| ==> IsFor(env[i], name))
    ensures forall k :: 0 <= k < i ==> !IsFor(env[k], name)
  {
    if env == [] || IsFor(env[0], name) then 0 else 1 + Place(env[1..], name)
  }

  /** What getenv finds. */
  function Value(env: seq<string>, name: string): Option<string> {
    var i := Place(env, name);
    if i < |env| then Some(env[i][|name| + 1..]) else None
  }

  function WithValue(env: seq<string>, name: string, val: string): seq<string> {
    var i := Place(env, name);
    if i < |env| then env[i := name + "=" + val] else env + [name + "=" + val]
  }

  function Without(env: seq<string>, name: string): seq<string> {
    var i := Place(env, name);
    if i < |env| then env[..i] + env[i + 1..] else env
  }

  /** No two entries are for the same name. */
  ghost predicate UniqueNames(env: seq<string>) {
    forall i, j :: 0 <= i < j < |env| && HasEquals(env[i]) && HasEquals(env[j]) ==> NameOf(env[i]) != NameOf(env[j])
  }

  // ----- A map from names to values

  lemma IsForItsName(e: string, name: string)
    requires IsName(name)
    ensures IsFor(e, name) <==> NameOf(e) == name && HasEquals(e)
  {
    var i := EqualsAt(e);
    if IsFor(e, name) {
      assert forall k :: 0 <= k < |name| ==> e[k] == e[..|name|][k];
      assert i == |name|;
    }
  }

  lemma PlaceIs(env: seq<string>, name: string, i: nat)
    requires i <= |env| && (i < |env| ==> IsFor(env[i], name)) && forall k :: 0 <= k < i ==> !IsFor(env[k], name)
    ensures Place(env, name) == i
  {
  }

  /** An entry is for one name only. */
  lemma OneName(e: string, m: string, n: string)
    requires IsName(m) && IsName(n) && IsFor(e, m) && IsFor(e, n)
    ensures m == n
  {
    IsForItsName(e, m);
    IsForItsName(e, n);
  }

  /** Setenv is the update of the map: the name has the value and every other name what it had. */
  lemma SetenvUpdates(env: seq<string>, name: string, val: string, other: string)
    requires IsName(name) && IsName(other)
    ensures Value(WithValue(env, name, val), other) == if other == name then Some(val) else Value(env, other)
  {
    var i, j, e := Place(env, name), Place(env, other), name + "=" + val;
    var after := WithValue(env, name, val);
    assert IsFor(e, name);
    if other == name {
      PlaceIs(after, name, i);
      assert e[|name| + 1..] == val;
    } else {
      if IsFor(e, other) {
        OneName(e, name, other);
      }
      if i < |env| && IsFor(env[i], other) {
        OneName(env[i], name, other);
      }
      PlaceIs(after, other, if j < |env| then j else |after|);
    }
  }

  /** A name with a = in it sets another name: the one before the =. */
  lemma NameWithEquals(name: string, val: string)
    requires !IsName(name)
    ensures var other := NameOf(name);
            && IsName(other) && other != name && Value([], other) == None
            && Value(WithValue([], name, val), other).Some?
  {
    var other, e := NameOf(name), name + "=" + val;
    assert WithValue([], name, val) == [e];
    assert e[..|other|] == other && e[|other|] == name[|other|];
    assert IsFor(e, other);
    PlaceIs([e], other, 0);
  }

  /** Setenv leaves all other names alone, in every environment, exactly if its name has no =. */
  lemma SetenvExactly(name: string, val: string)
    ensures (forall env, other | IsName(other) && other != name :: KeepsValue(env, name, val, other)) <==> IsName(name)
  {
    if IsName(name) {
      forall env, other | IsName(other) && other != name ensures KeepsValue(env, name, val, other) {
        SetenvUpdates(env, name, val, other);
      }
    } else {
      NameWithEquals(name, val);
      assert !KeepsValue([], name, val, NameOf(name));
    }
  }

  ghost predicate KeepsValue(env: seq<string>, name: string, val: string, other: string) {
    Value(WithValue(env, name, val), other) == Value(env, other)
  }

  /** Unsetenv is the removal from the map, of the first entry if there are several. */
  lemma UnsetenvDeletes(env: seq<string>, name: string, other: string)
    requires IsName(name) && IsName(other) && (other == name ==> UniqueNames(env))
    ensures Value(Without(env, name), other) == if other == name then None else Value(env, other)
  {
    var i, j := Place(env, name), Place(env, other);
    var after := Without(env, name);
    if i < |env| {
      assert forall k :: 0 <= k < i ==> after[k] == env[k];
      assert forall k :: i <= k < |after| ==> after[k] == env[k + 1];
      if other == name {
        forall k | 0 <= k < |after| ensures !IsFor(after[k], name) {
          IsForItsName(env[i], name);
          IsForItsName(after[k], name);
        }
        PlaceIs(after, name, |after|);
      } else {
        if j == i {
          OneName(env[i], name, other);
        }
        PlaceIs(after, other, if j > i then j - 1 else j);
      }
    }
  }

  /** At most one entry of a list with unique names is for a name. */
  lemma OnlyPlace(env: seq<string>, name: string, k: nat)
    requires UniqueNames(env) && IsName(name) && k < |env| && IsFor(env[k], name)
    ensures k == Place(env, name)
  {
    var i := Place(env, name);
    IsForItsName(env[k], name);
    IsForItsName(env[i], name);
  }

  lemma SetenvKeepsUnique(env: seq<string>, name: string, val: string)
    requires UniqueNames(env) && IsName(name)
    ensures UniqueNames(WithValue(env, name, val))
  {
    var i, e := Place(env, name), name + "=" + val;
    var after := WithValue(env, name, val);
    IsForItsName(e, name);
    forall k | 0 <= k < |env| && HasEquals(env[k]) && NameOf(env[k]) == name ensures k == i {
      IsForItsName(env[k], name);
      OnlyPlace(env, name, k);
    }
    assert forall k :: 0 <= k < |after| && k != i ==> after[k] == env[k];
  }

  lemma UnsetenvKeepsUnique(env: seq<string>, name: string)
    requires UniqueNames(env)
    ensures UniqueNames(Without(env, name))
  {
    var i, after := Place(env, name), Without(env, name);
    if i < |env| {
      forall k | 0 <= k < |after| ensures after[k] == env[if k < i then k else k + 1] {
      }
    }
  }

  // ----- unsetenv with patterns

  /** The entries whose names do not match. */
  function Kept(env: seq<string>, matches: string -> bool): seq<string> {
    if env == [] then []
    else (if matches(NameOf(env[0])) then [] else [env[0]]) + Kept(env[1..], matches)
  }

  /** The first entry whose name matches, or the length of the list. */
  function Found(env: seq<string>, matches: string -> bool): (i: nat)
    ensures i <= |env| && (i < |env| ==> matches(NameOf(env[i])))
    ensures forall k :: 0 <= k < i ==> !matches(NameOf(env[k]))
  {
    if env == [] || matches(NameOf(env[0])) then 0 else 1 + Found(env[1..], matches)
  }

  lemma FoundIs(env: seq<string>, matches: string -> bool, i: nat)
    requires i <= |env| && (i < |env| ==> matches(NameOf(env[i])))
    requires forall k :: 0 <= k < i ==> !matches(NameOf(env[k]))
    ensures Found(env, matches) == i
  {
  }

  /** One round of the restart loop: the first matching name is unset; None ends the loop. */
  function Round(env: seq<string>, matches: string -> bool): Option<seq<string>> {
    var i := Found(env, matches);
    if i == |env| then None else Some(Without(env, NameOf(env[i])))
  }

  ghost predicate AllHaveEquals(env: seq<string>, matches: string -> bool) {
    forall i :: 0 <= i < |env| && matches(NameOf(env[i])) ==> HasEquals(env[i])
  }

  /** With a = in it, the entry found is the one that Unsetenv removes. */
  lemma RemovesFound(env: seq<string>, matches: string -> bool)
    requires AllHaveEquals(env, matches) && Found(env, matches) < |env|
    ensures Place(env, NameOf(env[Found(env, matches)])) == Found(env, matches)
  {
    var i := Found(env, matches);
    var name := NameOf(env[i]);
    IsForItsName(env[i], name);
    forall k | 0 <= k < i ensures !IsFor(env[k], name) {
      IsForItsName(env[k], name);
    }
    PlaceIs(env, name, i);
  }

  lemma {:induction false} KeptWithout(env: seq<string>, matches: string -> bool, i: nat)
    requires i < |env| && matches(NameOf(env[i]))
    ensures Kept(env[..i] + env[i + 1..], matches) == Kept(env, matches)
  {
    var after := env[..i] + env[i + 1..];
    if i == 0 {
      assert after == env[1..];
    } else {
      assert after[1..] == env[1..][..i - 1] + env[1..][i..];
      KeptWithout(env[1..], matches, i - 1);
    }
  }

  lemma {:induction false} NothingFound(env: seq<string>, matches: string -> bool)
    requires Found(env, matches) == |env|
    ensures Kept(env, matches) == env
  {
    if env != [] {
      NothingFound(env[1..], matches);
      assert [env[0]] + env[1..] == env;
    }
  }

  /** n rounds, None if the loop ended before. */
  function Rounds(env: seq<string>, matches: string -> bool, n: nat): Option<seq<string>> {
    if n == 0 then Some(env)
    else match Round(env, matches)
      case None => None
      case Some(after) => Rounds(after, matches, n - 1)
  }

  /** An entry without = is never removed. */
  lemma StaysPut(env: seq<string>, name: string, e: string)
    requires e in env && !HasEquals(e)
    ensures e in Without(env, name)
  {
    var i := Place(env, name);
    var k :| 0 <= k < |env| && env[k] == e;
    if i < |env| {
      ForHasEquals(env[i], name);
      RemovedAt(env, i, k);
    }
  }

  lemma ForHasEquals(e: string, name: string)
    requires IsFor(e, name)
    ensures HasEquals(e)
  {
  }

  lemma RemovedAt(env: seq<string>, i: nat, k: nat)
    requires i < |env| && k < |env| && k != i
    ensures env[k] in env[..i] + env[i + 1..]
  {
    assert (env[..i] + env[i + 1..])[if k < i then k else k - 1] == env[k];
  }

  lemma MoreRounds(env: seq<string>, matches: string -> bool, n: nat)
    requires Found(env, matches) < |env|
    ensures Rounds(env, matches, n + 1) == Rounds(Without(env, NameOf(env[Found(env, matches)])), matches, n)
  {
  }

  lemma FoundIfAny(env: seq<string>, matches: string -> bool, e: string)
    requires e in env && matches(NameOf(e))
    ensures Found(env, matches) < |env|
  {
    var k :| 0 <= k < |env| && env[k] == e;
  }

  /** With a matching entry that lacks the =, the restart loop never ends. */
  lemma {:induction false} NeverEnds(env: seq<string>, matches: string -> bool, e: string, n: nat)
    requires e in env && !HasEquals(e) && matches(NameOf(e))
    ensures Rounds(env, matches, n).Some?
    decreases n
  {
    if n > 0 {
      FoundIfAny(env, matches, e);
      MoreRounds(env, matches, n - 1);
      var name := NameOf(env[Found(env, matches)]);
      StaysPut(env, name, e);
      NeverEnds(Without(env, name), matches, e, n - 1);
    }
  }

  /** The loop ends after n rounds with this list. */
  ghost predicate EndsAfter(env: seq<string>, matches: string -> bool, n: nat, end: seq<string>) {
    Rounds(env, matches, n) == Some(end) && Found(end, matches) == |end|
  }

  lemma EndsOneLater(env: seq<string>, matches: string -> bool, after: seq<string>, n: nat, end: seq<string>)
    requires Found(env, matches) < |env| && after == Without(env, NameOf(env[Found(env, matches)]))
    requires EndsAfter(after, matches, n, end)
    ensures EndsAfter(env, matches, n + 1, end)
  {
    MoreRounds(env, matches, n);
  }

  /** Otherwise it ends, after a round for each matching entry and with exactly those gone. */
  lemma {:induction false} EndsWithKept(env: seq<string>, matches: string -> bool)
    requires AllHaveEquals(env, matches)
    ensures var kept := Kept(env, matches);
            |kept| <= |env| && EndsAfter(env, matches, |env| - |kept|, kept)
    decreases |env|
  {
    var i := Found(env, matches);
    if i == |env| {
      NothingFound(env, matches);
    } else {
      OneRound(env, matches);
      var after := Without(env, NameOf(env[i]));
      EndsWithKept(after, matches);
      EndsOneLater(env, matches, after, |after| - |Kept(after, matches)|, Kept(env, matches));
    }
  }

  lemma NoRound(env: seq<string>, matches: string -> bool)
    requires Found(env, matches) == |env|
    ensures Rounds(env, matches, 1) == None
  {
  }

  lemma NoneOneLater(env: seq<string>, matches: string -> bool, after: seq<string>, n: nat)
    requires Found(env, matches) < |env| && after == Without(env, NameOf(env[Found(env, matches)]))
    requires Rounds(after, matches, n) == None
    ensures Rounds(env, matches, n + 1) == None
  {
    MoreRounds(env, matches, n);
  }

  lemma {:induction false} Ends(env: seq<string>, matches: string -> bool) returns (n: nat)
    requires AllHaveEquals(env, matches)
    ensures Rounds(env, matches, n) == None
    decreases |env|
  {
    var i := Found(env, matches);
    if i == |env| {
      NoRound(env, matches);
      return 1;
    }
    OneRound(env, matches);
    var after := Without(env, NameOf(env[i]));
    n := Ends(after, matches);
    NoneOneLater(env, matches, after, n);
    return n + 1;
  }

  lemma GoesOn(env: seq<string>, matches: string -> bool, n: nat)
    requires !AllHaveEquals(env, matches)
    ensures Rounds(env, matches, n) != None
  {
    var i :| 0 <= i < |env| && matches(NameOf(env[i])) && !HasEquals(env[i]);
    NeverEnds(env, matches, env[i], n);
  }

  /** The restart loop ends exactly if every matching entry has a =. */
  lemma EndsExactly(env: seq<string>, matches: string -> bool)
    ensures (exists n :: Rounds(env, matches, n) == None) <==> AllHaveEquals(env, matches)
  {
    if AllHaveEquals(env, matches) {
      var _ := Ends(env, matches);
    } else {
      forall n ensures Rounds(env, matches, n) != None {
        GoesOn(env, matches, n);
      }
    }
  }

  lemma OneRound(env: seq<string>, matches: string -> bool)
    requires AllHaveEquals(env, matches) && Found(env, matches) < |env|
    ensures var after := Without(env, NameOf(env[Found(env, matches)]));
            AllHaveEquals(after, matches) && |after| == |env| - 1 && Kept(after, matches) == Kept(env, matches)
  {
    var i := Found(env, matches);
    RemovesFound(env, matches);
    KeptWithout(env, matches, i);
    var after := env[..i] + env[i + 1..];
    forall k | 0 <= k < |after| && matches(NameOf(after[k])) ensures HasEquals(after[k]) {
      assert after[k] == env[if k < i then k else k + 1];
    }
  }

  predicate MatchesAny(name: string, patterns: seq<string>, matches: (string, string) -> bool) {
    exists i :: 0 <= i < |patterns| && matches(name, patterns[i])
  }

  /** The names that some pattern matches. */
  function AnyOf(patterns: seq<string>, matches: (string, string) -> bool): string -> bool {
    n => MatchesAny(n, patterns, matches)
  }

  lemma {:induction false} KeptByNone(env: seq<string>, matches: (string, string) -> bool)
    ensures Kept(env, AnyOf([], matches)) == env
  {
    if env != [] {
      KeptByNone(env[1..], matches);
      assert [env[0]] + env[1..] == env;
    }
  }

  lemma OnePatternMore(n: string, patterns: seq<string>, v: nat, matches: (string, string) -> bool)
    requires v < |patterns|
    ensures MatchesAny(n, patterns[..v + 1], matches)
            <==> MatchesAny(n, patterns[..v], matches) || matches(n, patterns[v])
  {
    assert forall i :: 0 <= i < v ==> patterns[..v][i] == patterns[..v + 1][i];
    assert patterns[..v + 1][v] == patterns[v];
  }

  /** One pattern after others removes what all of them together remove. */
  lemma {:induction false} KeptByOneMore(env: seq<string>, patterns: seq<string>, v: nat,
                                         matches: (string, string) -> bool)
    requires v < |patterns|
    ensures Kept(Kept(env, AnyOf(patterns[..v], matches)), n => matches(n, patterns[v]))
            == Kept(env, AnyOf(patterns[..v + 1], matches))
    decreases |env|
  {
    if env != [] {
      KeptByOneMore(env[1..], patterns, v, matches);
      OnePatternMore(NameOf(env[0]), patterns, v, matches);
      var rest := Kept(env[1..], AnyOf(patterns[..v], matches));
      assert ([env[0]] + rest)[1..] == rest && [] + rest == rest;
    }
  }

  lemma {:induction false} KeptHaveEquals(env: seq<string>, drop: string -> bool, matches: string -> bool)
    requires AllHaveEquals(env, matches)
    ensures AllHaveEquals(Kept(env, drop), matches)
  {
    if env != [] {
      KeptHaveEquals(env[1..], drop, matches);
    }
  }

  // ----- The code

  class Environment {
    var entries: seq<string>             // STR_environ

    constructor (entries: seq<string>)
      ensures this.entries == entries
    {
      this.entries := entries;
    }

    /** The comparison loop of Setenv and Unsetenv. */
    static method Compare(name: string, e: string) returns (r: bool)
      ensures r == IsFor(e, name)
    {
      var k := 0;
      while k < |name| && k < |e| && name[k] == e[k]
        invariant k <= |name| && k <= |e| && name[..k] == e[..k]
      {
        k := k + 1;
      }
      assert |name| <= |e| && k < |name| ==> e[..|name|][k] != name[k];
      return k == |name| && k < |e| && e[k] == '=';
    }

    method Setenv(name: string, val: string)
      modifies this
      ensures entries == WithValue(old(entries), name, val)
    {
      for ep := 0 to |entries|
        invariant entries == old(entries)
        invariant forall k :: 0 <= k < ep ==> !IsFor(entries[k], name)
      {
        var found := Compare(name, entries[ep]);
        if found {
          PlaceIs(entries, name, ep);
          entries := entries[ep := name + "=" + val];
          return;
        }
      }
      PlaceIs(entries, name, |entries|);
      entries := entries + [name + "=" + val];
    }

    method Unsetenv(name: string)
      modifies this
      ensures entries == Without(old(entries), name)
    {
      for ep := 0 to |entries|
        invariant entries == old(entries)
        invariant forall k :: 0 <= k < ep ==> !IsFor(entries[k], name)
      {
        var found := Compare(name, entries[ep]);
        if found {
          PlaceIs(entries, name, ep);
          entries := entries[..ep] + entries[ep + 1..];
          return;
        }
      }
      PlaceIs(entries, name, |entries|);
    }

    /** One round of the restart loop; false if no name matches any more. */
    method UnsetFirst(matches: string -> bool) returns (again: bool)
      modifies this
      ensures again == Round(old(entries), matches).Some?
      ensures entries == if again then Round(old(entries), matches).value else old(entries)
    {
      for ep := 0 to |entries|
        invariant entries == old(entries)
        invariant forall k :: 0 <= k < ep ==> !matches(NameOf(entries[k]))
      {
        var name := NameOf(entries[ep]);
        if matches(name) {
          FoundIs(entries, matches, ep);
          Unsetenv(name);
          return true;
        }
      }
      FoundIs(entries, matches, |entries|);
      return false;
    }

    /** unsetenv with one pattern, where the loop ends. */
    method UnsetMatching(matches: string -> bool)
      requires AllHaveEquals(entries, matches)
      modifies this
      ensures entries == Kept(old(entries), matches)
    {
      var again := true;
      while again
        invariant AllHaveEquals(entries, matches) && Kept(entries, matches) == Kept(old(entries), matches)
        invariant !again ==> Found(entries, matches) == |entries|
        decreases |entries|, again
      {
        if Found(entries, matches) < |entries| {
          OneRound(entries, matches);
        }
        again := UnsetFirst(matches);
      }
      NothingFound(entries, matches);
    }

    /** dounsetenv: the patterns in turn. */
    method DoUnsetenv(patterns: seq<string>, matches: (string, string) -> bool)
      requires AllHaveEquals(entries, AnyOf(patterns, matches))
      modifies this
      ensures entries == Kept(old(entries), AnyOf(patterns, matches))
    {
      KeptByNone(entries, matches);
      for v := 0 to |patterns|
        invariant entries == Kept(old(entries), AnyOf(patterns[..v], matches))
      {
        KeptByOneMore(old(entries), patterns, v, matches);
        var one := n => matches(n, patterns[v]);
        KeptHaveEquals(old(entries), AnyOf(patterns[..v], matches), one);
        UnsetMatching(one);
      }
      assert patterns[..|patterns|] == patterns;
    }
  }
}
