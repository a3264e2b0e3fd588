/**
  The command hash table of the C shell: a bit per hash value tells which path components
  may hold a name (hash, bit, bis, hashname, dohash and iscommand of usr/src/bin/csh/exec.c).
  Directories and the test for an executable file are parameters.
 */
module CommandHash {
  import opened Numbers

  const HSHSIZ: nat := 8192
  const HSHMUL: nat := 243

  /** An entry of a directory; `live` unless its inode number is 0. */
  datatype Entry = Entry(name: string, live: bool)

  /** Reading a directory: None if it cannot be opened. */
  type Listing = string -> Option<seq<Entry>>

  /** The test of executable(): a directory, or "" for none, and a name. */
  type Executable = (string, string) -> bool

  // ----- Specification

  function Hash(a: nat, b: nat): (h: nat)
    ensures h < HSHSIZ
  {
    (a * HSHMUL + b) % HSHSIZ
  }

  function HashFrom(h: nat, name: string): (r: nat)
    ensures h < HSHSIZ ==> r < HSHSIZ
    decreases |name|
  {
    if name == "" then h else HashFrom(Hash(h, name[0] as nat), name[1..])
  }

  /** The bit of a name in the i-th path component. */
  function BitOf(name: string, i: nat): (h: nat)
    ensures h < HSHSIZ
  {
    Hash(HashFrom(0, name), i)
  }

  predicate IsAbsolute(dir: string) {
    dir != "" && dir[0] == '/'
  }

  predicate IsDots(name: string) {
    name == "." || name == ".."
  }

  predicate Hashed(e: Entry) {
    e.live && !IsDots(e.name)
  }

  /** The bits that the first n components of the path set. */
  ghost predicate SetBy(path: seq<string>, n: nat, list: Listing, h: nat)
    requires n <= |path|
  {
    exists i, k ::
      && 0 <= i < n && IsAbsolute(path[i]) && list(path[i]).Some? && 0 <= k < |list(path[i]).value|
      && Hashed(list(path[i]).value[k]) && BitOf(list(path[i]).value[k].name, i) == h
  }

  /** The bits that the first n entries of a directory set. */
  ghost predicate SetByEntries(es: seq<Entry>, n: nat, i: nat, h: nat)
    requires n <= |es|
  {
    exists k :: 0 <= k < n && Hashed(es[k]) && BitOf(es[k].name, i) == h
  }

  /** The first component from i on that is admitted and holds the name, counted from 1; 0 if none. */
  function Search(path: seq<string>, name: string, i: nat, admits: nat -> bool, exec: Executable): (r: nat)
    requires i <= |path|
    ensures r == 0 ==> forall k :: i <= k < |path| ==> !(admits(k) && Holds(path[k], name, exec))
    ensures r > 0 ==> i < r <= |path| && admits(r - 1) && Holds(path[r - 1], name, exec)
    ensures r > 0 ==> forall k :: i <= k < r - 1 ==> !(admits(k) && Holds(path[k], name, exec))
    decreases |path| - i
  {
    if i == |path| then 0
    else if admits(i) && Holds(path[i], name, exec) then i + 1
    else Search(path, name, i + 1, admits, exec)
  }

  /** The name is an executable file in a path component; "" and "." are the current directory. */
  predicate Holds(dir: string, name: string, exec: Executable) {
    if dir == "" || dir == "." then exec("", name) else exec(dir, "/" + name)
  }

  /** The path that is searched for a name. */
  function SearchPath(path: seq<string>, name: string): (r: seq<string>)
    ensures r != []
  {
    if path == [] || '/' in name then [""] else path
  }

  /** What iscommand answers without the table. */
  function Lookup(path: seq<string>, name: string, exec: Executable): nat {
    Search(SearchPath(path, name), name, 0, _ => true, exec)
  }

  // ----- Bits

  function Mask(k: nat): bv8 {
    match k
    case 0 => 1
    case 1 => 2
    case 2 => 4
    case 3 => 8
    case 4 => 16
    case 5 => 32
    case 6 => 64
    case _ => 128
  }

  lemma OtherBits(x: bv8, k: nat, j: nat)
    requires k < 8 && j < 8
    ensures (x | Mask(k)) & Mask(j) != 0 <==> k == j || x & Mask(j) != 0
  {
  }

  predicate IsTable(bits: seq<bv8>) {
    |bits| == HSHSIZ / 8
  }

  predicate Marked(bits: seq<bv8>, h: nat)
    requires IsTable(bits) && h < HSHSIZ
  {
    bits[h / 8] & Mask(h % 8) != 0
  }

  /** The components that the table, if it is on, lets iscommand look into. */
  predicate Admits(bits: seq<bv8>, on: bool, path: seq<string>, name: string, i: nat)
    requires IsTable(bits)
  {
    on && i < |path| && IsAbsolute(path[i]) ==> Marked(bits, BitOf(name, i))
  }

  function Filter(bits: seq<bv8>, on: bool, path: seq<string>, name: string): nat -> bool
    requires IsTable(bits)
  {
    (i: nat) => Admits(bits, on, path, name, i)
  }

  /** What iscommand answers with the table. */
  function HashedLookup(bits: seq<bv8>, on: bool, path: seq<string>, name: string, exec: Executable): nat
    requires IsTable(bits)
  {
    var pv := SearchPath(path, name);
    Search(pv, name, 0, Filter(bits, on, pv, name), exec)
  }

  // ----- What is searched and what is hashed

  /** A name with a slash is looked for as it stands, whatever the path is. */
  lemma SlashAsItStands(path: seq<string>, name: string, exec: Executable)
    requires '/' in name
    ensures Lookup(path, name, exec) == if exec("", name) then 1 else 0
  {
  }

  /** The current directory can be written as "." or as nothing. */
  lemma DotIsHere(path: seq<string>, j: nat, name: string, exec: Executable)
    requires j < |path| && path[j] == "."
    ensures Lookup(path[j := ""], name, exec) == Lookup(path, name, exec)
  {
    if '/' !in name {
      DotSearched(path, j, name, 0, exec);
    }
  }

  lemma {:induction false} DotSearched(path: seq<string>, j: nat, name: string, i: nat, exec: Executable)
    requires j < |path| && path[j] == "." && i <= |path|
    ensures Search(path[j := ""], name, i, _ => true, exec) == Search(path, name, i, _ => true, exec)
    decreases |path| - i
  {
    if i < |path| {
      DotSearched(path, j, name, i + 1, exec);
    }
  }

  /** Entries that are gone, "." and ".." set no bit, and nor does a component that is no absolute path. */
  lemma SetNoBit(path: seq<string>, list: Listing, h: nat)
    requires forall i :: 0 <= i < |path| && path[i] != "" && path[i][0] == '/' && list(path[i]).Some? ==>
               forall e :: e in list(path[i]).value ==> !e.live || e.name == "." || e.name == ".."
    ensures !SetBy(path, |path|, list, h)
  {
    forall i, k | 0 <= i < |path| && IsAbsolute(path[i]) && list(path[i]).Some? && 0 <= k < |list(path[i]).value|
      ensures !Hashed(list(path[i]).value[k])
    {
      assert list(path[i]).value[k] in list(path[i]).value;
    }
  }

  // ----- The table loses nothing

  /** The answer with the table is the answer without it exactly when the table admits that answer. */
  lemma SameIfAdmitted(bits: seq<bv8>, on: bool, path: seq<string>, name: string, exec: Executable)
    requires IsTable(bits)
    ensures var r := Lookup(path, name, exec);
            HashedLookup(bits, on, path, name, exec) == r <==>
            r == 0 || Admits(bits, on, SearchPath(path, name), name, r - 1)
  {
  }

  /** The table holds the bits of the entries of the path's directories and no others. */
  ghost predicate TableOf(bits: seq<bv8>, path: seq<string>, list: Listing) {
    IsTable(bits) && forall h :: 0 <= h < HSHSIZ ==> (Marked(bits, h) <==> SetBy(path, |path|, list, h))
  }

  ghost predicate AllReadable(path: seq<string>, list: Listing) {
    forall i :: 0 <= i < |path| && IsAbsolute(path[i]) ==> list(path[i]).Some?
  }

  /** Reading a directory shows the files that can be executed in it. */
  ghost predicate Shows(list: Listing, exec: Executable, dir: string, name: string) {
    IsAbsolute(dir) && list(dir).Some? && '/' !in name && exec(dir, "/" + name)
    ==> !IsDots(name) && Entry(name, true) in list(dir).value
  }

  /** While path and directories stay as they were hashed, the table changes no answer. */
  lemma NoFalseNegatives(bits: seq<bv8>, path: seq<string>, list: Listing, exec: Executable, name: string)
    requires TableOf(bits, path, list) && AllReadable(path, list)
    requires forall i :: 0 <= i < |path| ==> Shows(list, exec, path[i], name)
    ensures HashedLookup(bits, true, path, name, exec) == Lookup(path, name, exec)
  {
    var r := Lookup(path, name, exec);
    var pv := SearchPath(path, name);
    if r > 0 && IsAbsolute(pv[r - 1]) {
      assert Holds(pv[r - 1], name, exec) && Shows(list, exec, path[r - 1], name);
      var es := list(path[r - 1]).value;
      var k :| 0 <= k < |es| && es[k] == Entry(name, true);
      assert SetBy(path, |path|, list, BitOf(name, r - 1));
    }
    SameIfAdmitted(bits, true, path, name, exec);
  }

  /** A command in a directory that cannot be read is missed. */
  lemma UnreadableDirectory(bits: seq<bv8>, name: string)
    requires '/' !in name
    requires TableOf(bits, ["/x"], _ => None)
    ensures var exec: Executable := (_, _) => true;
            HashedLookup(bits, true, ["/x"], name, exec) == 0 && Lookup(["/x"], name, exec) == 1
  {
    assert !SetBy(["/x"], 1, _ => None, BitOf(name, 0));
    assert !Marked(bits, BitOf(name, 0));
  }

  // ----- When it does

  /** File names are bytes other than NUL and the slash. */
  predicate IsFileName(name: string) {
    name != "" && !IsDots(name) && forall i :: 0 <= i < |name| ==> 0 < name[i] as nat < 256 && name[i] != '/'
  }

  function Three(a: nat, b: nat, c: nat): string
    requires a < 256 && b < 256 && c < 256
  {
    [a as char, b as char, c as char]
  }

  lemma HashOfThree(a: nat, b: nat, c: nat)
    requires 48 <= a < 256 && 48 <= b < 256 && 48 <= c < 256
    ensures IsFileName(Three(a, b, c)) && HashFrom(0, Three(a, b, c)) == Hash(Hash(Hash(0, a), b), c)
  {
    var name := Three(a, b, c);
    var h1, h2 := Hash(0, a), Hash(Hash(0, a), b);
    assert name[1..] == [b as char, c as char] && name[1..][1..] == [c as char] && [c as char][1..] == "";
    assert HashFrom(h2, [c as char]) == Hash(h2, c);
    assert HashFrom(h1, name[1..]) == HashFrom(h2, [c as char]);
  }

  lemma ThreeLow(q: nat, t: nat)
    requires q <= 33 && t < 208
    ensures Hash(Hash(Hash(0, 48), 111 + q), 48 + t) == (2365 + 243 * q + t) % HSHSIZ
  {
    assert Hash(0, 48) == 48 && Hash(48, 111 + q) == 3583 + q;
  }

  lemma ThreeHigh(q: nat, t: nat)
    requires q <= 33 && 208 <= t < 243
    ensures Hash(Hash(Hash(0, 57), 48 + q), 12 + t) == (2365 + 243 * q + t) % HSHSIZ
  {
    assert Hash(0, 57) == 57 && Hash(57, 48 + q) == 5707 + q;
  }

  lemma Digits(x: nat) returns (q: nat, t: nat)
    requires x < HSHSIZ
    ensures q <= 33 && t < 243 && (2365 + 243 * q + t) % HSHSIZ == x
  {
    var y := (x + 5827) % HSHSIZ;
    q, t := y / 243, y % 243;
  }

  /** Every hash value is the hash of a file name of three bytes. */
  lemma NameFor(x: nat) returns (name: string)
    requires x < HSHSIZ
    ensures IsFileName(name) && HashFrom(0, name) == x
  {
    var q, t := Digits(x);
    if t < 208 {
      ThreeLow(q, t);
      HashOfThree(48, 111 + q, 48 + t);
      name := Three(48, 111 + q, 48 + t);
    } else {
      ThreeHigh(q, t);
      HashOfThree(57, 48 + q, 12 + t);
      name := Three(57, 48 + q, 12 + t);
    }
  }

  lemma Remainder(a: int, h: nat, k: int)
    requires a == h + 8192 * k && h < 8192
    ensures a % 8192 == h
  {
  }

  /** Multiplying by 243 can be undone modulo 8192. */
  lemma Undo(h: nat, i: nat) returns (x: nat)
    requires h < HSHSIZ
    ensures x < HSHSIZ && (x * HSHMUL + i) % HSHSIZ == h
  {
    var b, d := (h - i) / 8192, (h - i) % 8192;
    var a := d * 6203 / 8192;
    x := d * 6203 - 8192 * a;
    Remainder(x * 243 + i, h, 184 * d - 243 * a - b);
  }

  /** So every bit is the bit of some name in every component. */
  lemma BitFor(h: nat, i: nat) returns (name: string)
    requires h < HSHSIZ
    ensures IsFileName(name) && BitOf(name, i) == h
  {
    var x := Undo(h, i);
    name := NameFor(x);
  }

  /** The answers with and without the table agree for every name and all files that the listings show. */
  ghost predicate Agrees(bits: seq<bv8>, path: seq<string>, list: Listing, exec: Executable, name: string)
    requires IsTable(bits)
  {
    (forall i :: 0 <= i < |path| ==> Shows(list, exec, path[i], name))
    ==> HashedLookup(bits, true, path, name, exec) == Lookup(path, name, exec)
  }

  /** Only this one file can be executed. */
  function OnlyFile(dir: string, name: string): Executable {
    (d, f) => d == dir && f == "/" + name
  }

  lemma MissesUnreadable(bits: seq<bv8>, path: seq<string>, list: Listing, i: nat, name: string)
    requires IsTable(bits) && i < |path| && IsAbsolute(path[i]) && list(path[i]).None? && path[i] !in path[..i]
    requires IsFileName(name) && !Marked(bits, BitOf(name, i))
    ensures !Agrees(bits, path, list, OnlyFile(path[i], name), name)
  {
    var exec := OnlyFile(path[i], name);
    assert Holds(path[i], name, exec);
    forall k | 0 <= k < i ensures !Holds(path[k], name, exec) {
      assert path[..i][k] == path[k];
    }
    SameIfAdmitted(bits, true, path, name, exec);
  }

  /** The first component that cannot be read. */
  lemma FirstUnreadable(path: seq<string>, list: Listing) returns (i: nat)
    requires !AllReadable(path, list)
    ensures i < |path| && IsAbsolute(path[i]) && list(path[i]).None? && path[i] !in path[..i]
  {
    i := 0;
    while !(IsAbsolute(path[i]) && list(path[i]).None?)
      invariant i < |path| && forall k :: 0 <= k < i ==> !(IsAbsolute(path[k]) && list(path[k]).None?)
      decreases |path| - i
    {
      i := i + 1;
    }
  }

  ghost predicate IsFull(bits: seq<bv8>)
    requires IsTable(bits)
  {
    forall h :: 0 <= h < HSHSIZ ==> Marked(bits, h)
  }

  lemma AgreesIfReadable(bits: seq<bv8>, path: seq<string>, list: Listing, exec: Executable, name: string)
    requires TableOf(bits, path, list) && (AllReadable(path, list) || IsFull(bits))
    ensures Agrees(bits, path, list, exec, name)
  {
    SameIfAdmitted(bits, true, path, name, exec);
    if AllReadable(path, list) && forall i :: 0 <= i < |path| ==> Shows(list, exec, path[i], name) {
      NoFalseNegatives(bits, path, list, exec, name);
    }
  }

  lemma SomeMissed(bits: seq<bv8>, path: seq<string>, list: Listing) returns (exec: Executable, name: string)
    requires TableOf(bits, path, list) && !AllReadable(path, list) && !IsFull(bits)
    ensures IsFileName(name) && !Agrees(bits, path, list, exec, name)
  {
    var h :| 0 <= h < HSHSIZ && !Marked(bits, h);
    var i := FirstUnreadable(path, list);
    name := BitFor(h, i);
    MissesUnreadable(bits, path, list, i, name);
    exec := OnlyFile(path[i], name);
  }

  /**
    With the table of a path, every search finds what it finds without the table, if and only
    if all directories of the path can be read or the table is full.
   */
  lemma HashExactly(bits: seq<bv8>, path: seq<string>, list: Listing)
    requires TableOf(bits, path, list)
    ensures (forall exec, name :: IsFileName(name) ==> Agrees(bits, path, list, exec, name))
            <==> AllReadable(path, list) || IsFull(bits)
  {
    if AllReadable(path, list) || IsFull(bits) {
      forall exec, name | IsFileName(name) ensures Agrees(bits, path, list, exec, name) {
        AgreesIfReadable(bits, path, list, exec, name);
      }
    } else {
      var exec, name := SomeMissed(bits, path, list);
    }
  }

  // ----- The code

  class HashTable {
    const xhash: array<bv8>
    var havhash: bool

    ghost predicate Valid()
      reads this
    {
      xhash.Length == HSHSIZ / 8
    }

    constructor ()
      ensures Valid() && !havhash
    {
      xhash := new bv8[HSHSIZ / 8];
      havhash := false;
    }

    /** bis. */
    method SetBit(h: nat)
      requires Valid() && h < HSHSIZ
      modifies xhash
      ensures forall g :: 0 <= g < HSHSIZ ==> (Marked(xhash[..], g) <==> g == h || old(Marked(xhash[..], g)))
    {
      ghost var bits := xhash[..];
      xhash[h / 8] := xhash[h / 8] | Mask(h % 8);
      forall g | 0 <= g < HSHSIZ ensures Marked(xhash[..], g) <==> g == h || Marked(bits, g) {
        OtherBits(bits[g / 8], h % 8, g % 8);
      }
    }

    static method HashName(name: string) returns (h: nat)
      ensures h == HashFrom(0, name)
    {
      h := 0;
      var cp := 0;
      assert name[0..] == name;
      while cp < |name|
        invariant cp <= |name| && HashFrom(h, name[cp..]) == HashFrom(0, name)
      {
        assert name[cp..][1..] == name[cp + 1..];
        h := Hash(h, name[cp] as nat);
        cp := cp + 1;
      }
    }

    /** The readdir loop on one directory. */
    method AddEntries(es: seq<Entry>, i: nat)
      requires Valid()
      modifies xhash
      ensures forall g :: 0 <= g < HSHSIZ ==>
                (Marked(xhash[..], g) <==> old(Marked(xhash[..], g)) || SetByEntries(es, |es|, i, g))
    {
      for k := 0 to |es|
        invariant forall g :: 0 <= g < HSHSIZ ==>
                    (Marked(xhash[..], g) <==> old(Marked(xhash[..], g)) || SetByEntries(es, k, i, g))
      {
        if !es[k].live || IsDots(es[k].name) {
          continue;
        }
        var h := HashName(es[k].name);
        SetBit(Hash(h, i));
      }
    }

    method Clear()
      requires Valid()
      modifies xhash
      ensures forall g :: 0 <= g < HSHSIZ ==> !Marked(xhash[..], g)
    {
      for cnt := 0 to xhash.Length
        invariant forall c :: 0 <= c < cnt ==> xhash[c] == 0
      {
        xhash[cnt] := 0;
      }
      forall g | 0 <= g < HSHSIZ ensures !Marked(xhash[..], g) {
        assert xhash[..][g / 8] == 0;
      }
    }

    method DoHash(path: seq<string>, list: Listing)
      requires Valid()
      modifies this, xhash
      ensures havhash && TableOf(xhash[..], path, list)
    {
      havhash := true;
      Clear();
      for i := 0 to |path|
        invariant havhash
        invariant forall h :: 0 <= h < HSHSIZ ==> (Marked(xhash[..], h) <==> SetBy(path, i, list, h))
      {
        if !IsAbsolute(path[i]) {
          continue;
        }
        var dirp := list(path[i]);
        if dirp.None? {
          continue;
        }
        AddEntries(dirp.value, i);
      }
    }

    /** The bit test. */
    method Skips(pv: seq<string>, name: string, hashval: nat, i: nat) returns (skip: bool)
      requires Valid() && i < |pv| && (havhash ==> hashval == HashFrom(0, name)) && ('/' in name ==> !IsAbsolute(pv[i]))
      ensures skip == !Admits(xhash[..], havhash, pv, name, i)
    {
      if '/' !in name && IsAbsolute(pv[i]) && havhash {
        var h := Hash(hashval, i);
        return xhash[h / 8] & Mask(h % 8) == 0;
      }
      return false;
    }

    static method Look(dir: string, name: string, exec: Executable) returns (found: bool)
      ensures found == Holds(dir, name, exec)
    {
      if dir == "" || dir == "." {
        return exec("", name);
      }
      return exec(dir, "/" + name);
    }

    method IsCommand(path: seq<string>, name: string, exec: Executable) returns (r: nat)
      requires Valid()
      ensures r == HashedLookup(xhash[..], havhash, path, name, exec)
    {
      var slash := '/' in name;
      var pv := if path == [] || slash then [""] else path;
      var hashval := 0;
      if havhash {
        hashval := HashName(name);
      }
      ghost var bits, on := xhash[..], havhash;
      ghost var admits := Filter(bits, on, pv, name);
      var i := 0;
      while true
        invariant i < |pv| && Search(pv, name, i, admits, exec) == Search(pv, name, 0, admits, exec)
        decreases |pv| - i
      {
        var skip := Skips(pv, name, hashval, i);
        assert skip == !admits(i);
        if !skip {
          var found := Look(pv[i], name, exec);
          if found {
            return i + 1;
          }
        }
        i := i + 1;
        if i == |pv| {
          return 0;
        }
      }
    }
  }
}
