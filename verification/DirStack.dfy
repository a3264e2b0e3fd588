/**
  The directory stack of the C shell: cd, pushd and popd (usr/src/bin/csh/dir.c).

  The first part says what each command does to the list of directory names, as `dirs`
  prints it.  The second part is the ring of linked records that carries the list.
 */
module DirStack {
  import opened Numbers

  datatype Error = TooMany | NoDir | Deep | Empty | BadDir | NoHome | CantChange(name: string)
  datatype Result<+T> = Ok(value: T) | Err(error: Error)

  // ----- The commands on a list of names, the working directory first

  type Names = s: seq<string> | |s| > 0 witness [""]

  /** What the commands ask of the file system: chdir, and dfollow for a directory word. */
  datatype World = World(chdir: string -> bool, follow: string -> Result<string>)

  /** The number of a "+n" word with n > 0; any other word is not a stack position. */
  function Position(arg: string): Option<nat> {
    if arg != "" && arg[0] == '+' && AllDigits(arg[1..]) && DigitsValue(arg[1..]) > 0
    then Some(DigitsValue(arg[1..])) else None
  }

  function Find(names: Names, arg: string): Result<Option<nat>> {
    match Position(arg)
    case None => Ok(None)
    case Some(n) => if n < |names| then Ok(Some(n)) else Err(Deep)
  }

  function Rotate(names: Names, n: nat): Names
    requires n < |names|
  {
    names[n..] + names[..n]
  }

  function Chngd(names: Names, v: seq<string>, home: string, w: World): Result<Names> {
    if |v| == 0 then
      if home == "" then Err(NoHome)
      else if !w.chdir(home) then Err(CantChange(home)) else Ok(names[0 := home])
    else if |v| > 1 then Err(TooMany)
    else match Find(names, v[0])
      case Err(e) => Err(e)
      case Ok(Some(n)) =>
        if !w.chdir(names[n]) then Err(CantChange(names[n])) else Ok(names[n..] + names[1..n])
      case Ok(None) =>
        match w.follow(v[0]) { case Err(e) => Err(e) case Ok(name) => Ok(names[0 := name]) }
  }

  function Pushd(names: Names, v: seq<string>, w: World): Result<Names> {
    if |v| == 0 then
      if |names| == 1 then Err(NoDir)
      else if !w.chdir(names[1]) then Err(CantChange(names[1]))
      else Ok([names[1], names[0]] + names[2..])
    else if |v| > 1 then Err(TooMany)
    else match Find(names, v[0])
      case Err(e) => Err(e)
      case Ok(Some(n)) =>
        if !w.chdir(names[n]) then Err(CantChange(names[n])) else Ok(Rotate(names, n))
      case Ok(None) =>
        match w.follow(v[0]) { case Err(e) => Err(e) case Ok(name) => Ok([name] + names) }
  }

  function Popd(names: Names, v: seq<string>, w: World): Result<Names> {
    if |v| == 0 then
      if |names| == 1 then Err(Empty)
      else if !w.chdir(names[1]) then Err(CantChange(names[1])) else Ok(names[1..])
    else if |v| > 1 then Err(TooMany)
    else match Find(names, v[0])
      case Err(e) => Err(e)
      case Ok(None) => Err(BadDir)
      case Ok(Some(n)) => Ok(names[..n] + names[n + 1..])
  }

  // ----- What the commands undo and keep

  /** Pushing a directory and popping is the identity, if one can go back. */
  lemma PushThenPop(names: Names, dir: string, w: World)
    requires Position(dir).None? && w.follow(dir).Ok? && w.chdir(names[0])
    ensures var r := Pushd(names, [dir], w);
            r.Ok? && r.value[0] == w.follow(dir).value && Popd(r.value, [], w) == Ok(names)
  {
  }

  datatype Command = Cd(v: seq<string>) | Push(v: seq<string>) | Pop(v: seq<string>)

  /** A command that fails leaves the list as it was. */
  function Step(names: Names, c: Command, home: string, w: World): Names {
    var r := match c
      case Cd(v) => Chngd(names, v, home, w)
      case Push(v) => Pushd(names, v, w)
      case Pop(v) => Popd(names, v, w);
    if r.Ok? then r.value else names
  }

  function Run(names: Names, cs: seq<Command>, home: string, w: World): Names
    decreases |cs|
  {
    if cs == [] then names else Run(Step(names, cs[0], home, w), cs[1..], home, w)
  }

  /** One can go back to the first directory and to every pushed one that another stands on. */
  predicate CanReturn(names: Names, dirs: seq<string>, w: World)
    requires forall i :: 0 <= i < |dirs| ==> w.follow(dirs[i]).Ok?
  {
    && (dirs != [] ==> w.chdir(names[0]))
    && forall i :: 0 <= i < |dirs| - 1 ==> w.chdir(w.follow(dirs[i]).value)
  }

  /** Any number of pushes is undone by as many pops exactly if one can go back. */
  lemma {:induction false} PushesThenPops(names: Names, dirs: seq<string>, home: string, w: World)
    requires forall i :: 0 <= i < |dirs| ==> Position(dirs[i]).None? && w.follow(dirs[i]).Ok?
    ensures var r := Run(names, Pushes(dirs) + Pops(|dirs|), home, w);
            if CanReturn(names, dirs, w) then r == names else |r| > |names|
    decreases |dirs|
  {
    if dirs == [] {
      assert Pushes(dirs) + Pops(0) == [];
    } else {
      var up := Step(names, Push([dirs[0]]), home, w);
      var cs := Pushes(dirs[1..]) + Pops(|dirs| - 1);
      assert up == [w.follow(dirs[0]).value] + names && up[1..] == names;
      PushesThenPops(up, dirs[1..], home, w);
      ReturnsFirst(names, dirs, up, w);
      RunAppend(up, cs, Pop([]), home, w);
      FirstAndLast(dirs);
      RunFirst(names, Push([dirs[0]]), cs + [Pop([])], home, w);
    }
  }

  lemma ReturnsFirst(names: Names, dirs: seq<string>, up: Names, w: World)
    requires dirs != [] && forall i :: 0 <= i < |dirs| ==> w.follow(dirs[i]).Ok?
    requires up[0] == w.follow(dirs[0]).value
    ensures CanReturn(names, dirs, w) <==> w.chdir(names[0]) && CanReturn(up, dirs[1..], w)
  {
    var ds := dirs[1..];
    if CanReturn(up, ds, w) && w.chdir(names[0]) {
      forall i | 0 <= i < |dirs| - 1 ensures w.chdir(w.follow(dirs[i]).value) {
        assert i > 0 ==> ds[i - 1] == dirs[i];
      }
    }
    if CanReturn(names, dirs, w) {
      assert forall i :: 0 <= i < |ds| ==> ds[i] == dirs[i + 1];
    }
  }

  lemma FirstAndLast(dirs: seq<string>)
    requires dirs != []
    ensures Pushes(dirs) + Pops(|dirs|) == [Push([dirs[0]])] + (Pushes(dirs[1..]) + Pops(|dirs| - 1) + [Pop([])])
  {
  }

  lemma RunFirst(names: Names, c: Command, cs: seq<Command>, home: string, w: World)
    ensures Run(names, [c] + cs, home, w) == Run(Step(names, c, home, w), cs, home, w)
  {
    assert ([c] + cs)[1..] == cs;
  }

  function Pushes(dirs: seq<string>): seq<Command> {
    seq(|dirs|, i requires 0 <= i < |dirs| => Push([dirs[i]]))
  }

  function Pops(n: nat): seq<Command> {
    seq(n, _ => Pop([]))
  }

  lemma {:induction false} RunAppend(names: Names, cs: seq<Command>, c: Command, home: string, w: World)
    ensures Run(names, cs + [c], home, w) == Step(Run(names, cs, home, w), c, home, w)
    decreases |cs|
  {
    if cs != [] {
      assert (cs + [c])[1..] == cs[1..] + [c];
      RunAppend(Step(names, cs[0], home, w), cs[1..], c, home, w);
    } else {
      assert cs + [c] == [c];
    }
  }

  /** The rotations of pushd undo one another, and no directory is lost by them. */
  lemma RotateBack(names: Names, n: nat)
    requires 0 < n < |names|
    ensures Rotate(Rotate(names, n), |names| - n) == names
    ensures multiset(Rotate(names, n)) == multiset(names)
  {
    assert names == names[..n] + names[n..];
  }

  /** A second pushd without words undoes the first. */
  lemma SwapTwice(names: Names, w: World)
    requires |names| > 1 && w.chdir(names[0]) && w.chdir(names[1])
    ensures var r := Pushd(names, [], w);
            r.Ok? && Pushd(r.value, [], w) == Ok(names)
  {
    var v := [names[1], names[0]] + names[2..];
    assert [v[1], v[0]] + v[2..] == names;
  }

  /** Every position has a word. */
  lemma PositionOf(n: nat)
    requires n > 0
    ensures Position("+" + PutDigits(n)) == Some(n)
  {
    DigitsRoundTrip(n);
    assert ("+" + PutDigits(n))[1..] == PutDigits(n);
  }

  /** When the commands succeed: the position is there, and one can change to the directory. */
  lemma WhenOk(names: Names, v: seq<string>, home: string, w: World)
    ensures |v| > 1 ==> Chngd(names, v, home, w) == Pushd(names, v, w) == Popd(names, v, w) == Err(TooMany)
    ensures |v| == 0 ==>
              && (Pushd(names, v, w).Ok? <==> |names| > 1 && w.chdir(names[1]))
              && (Popd(names, v, w).Ok? <==> |names| > 1 && w.chdir(names[1]))
              && (Chngd(names, v, home, w).Ok? <==> home != "" && w.chdir(home))
    ensures |v| == 1 && Position(v[0]).Some? ==>
              var n := Position(v[0]).value;
              && (Pushd(names, v, w).Ok? <==> n < |names| && w.chdir(names[n]))
              && (Chngd(names, v, home, w).Ok? <==> n < |names| && w.chdir(names[n]))
              && (Popd(names, v, w).Ok? <==> n < |names|)
    ensures |v| == 1 && Position(v[0]).None? ==>
              && (Pushd(names, v, w).Ok? <==> w.follow(v[0]).Ok?)
              && (Chngd(names, v, home, w).Ok? <==> w.follow(v[0]).Ok?)
              && Popd(names, v, w) == Err(BadDir)
  {
  }

  /** And how they fail: a lone directory, a stack that is not deep enough, or a directory one cannot change to. */
  lemma WhenErr(names: Names, v: seq<string>, home: string, w: World)
    ensures |v| == 0 && |names| == 1 ==> Pushd(names, v, w) == Err(NoDir) && Popd(names, v, w) == Err(Empty)
    ensures |v| == 0 && |names| > 1 && !w.chdir(names[1]) ==>
              Pushd(names, v, w) == Popd(names, v, w) == Err(CantChange(names[1]))
    ensures |v| == 0 && !w.chdir(home) ==>
              Chngd(names, v, home, w) == Err(if home == "" then NoHome else CantChange(home))
    ensures |v| == 1 && Position(v[0]).Some? ==>
              var n := Position(v[0]).value;
              && (n >= |names| ==> Chngd(names, v, home, w) == Pushd(names, v, w) == Popd(names, v, w) == Err(Deep))
              && (n < |names| && !w.chdir(names[n]) ==>
                  Chngd(names, v, home, w) == Pushd(names, v, w) == Err(CantChange(names[n])))
  {
  }

  /** pushd +n brings the n-th name to the front and loses none; going on by the rest of the way undoes it. */
  lemma PushPosition(names: Names, n: nat, p: string, q: string, w: World)
    requires 0 < n < |names| && Position(p) == Some(n) && Position(q) == Some(|names| - n)
    requires w.chdir(names[n]) && w.chdir(names[0])
    ensures var r := Pushd(names, [p], w);
            && r.Ok? && r.value[0] == names[n] && multiset(r.value) == multiset(names)
            && Pushd(r.value, [q], w) == Ok(names)
  {
    RotateBack(names, n);
    assert Rotate(names, n)[|names| - n] == names[0];
  }

  /** popd +n takes out the n-th name, and the others stay as they were, the first one first. */
  lemma PopPosition(names: Names, n: nat, p: string, w: World)
    requires 0 < n < |names| && Position(p) == Some(n)
    ensures var r := Popd(names, [p], w);
            && r.Ok? && r.value[0] == names[0] && r.value[..n] + [names[n]] + r.value[n..] == names
            && multiset(r.value) + multiset{names[n]} == multiset(names)
  {
    var r := names[..n] + names[n + 1..];
    assert r[..n] == names[..n] && r[n..] == names[n + 1..];
    assert names == names[..n] + [names[n]] + names[n + 1..];
  }

  /**
    cd +n leaves the first directory for the n-th: the first name is gone, and the others are
    in the same cyclic order with the n-th in front.
   */
  lemma ChangePosition(names: Names, n: nat, p: string, home: string, w: World)
    requires 0 < n < |names| && Position(p) == Some(n) && w.chdir(names[n])
    ensures var r, k := Chngd(names, [p], home, w), |names| - n;
            && r.Ok? && |r.value| == |names| - 1 && r.value[0] == names[n]
            && r.value[k..] + r.value[..k] == names[1..]
            && multiset(r.value) + multiset{names[0]} == multiset(names)
  {
    var r, k := names[n..] + names[1..n], |names| - n;
    assert r[..k] == names[n..] && r[k..] == names[1..n];
    assert names[1..] == names[1..n] + names[n..];
    assert names == [names[0]] + (names[1..n] + names[n..]);
  }

  /** cd +n is pushd +n, and then popd of the directory that was left. */
  lemma ChangeIsPushPop(names: Names, n: nat, p: string, q: string, home: string, w: World)
    requires 0 < n < |names| && Position(p) == Some(n) && Position(q) == Some(|names| - n) && w.chdir(names[n])
    ensures var pushed := Pushd(names, [p], w);
            pushed.Ok? && Popd(pushed.value, [q], w) == Chngd(names, [p], home, w)
  {
    var r, k := Rotate(names, n), |names| - n;
    assert r[..k] == names[n..] && r[k + 1..] == names[1..n];
  }

  /** cd to a directory is pushd to it, and then popd of the one below; cd alone goes home. */
  lemma ChangeIsPushDrop(names: Names, dir: string, p: string, home: string, w: World)
    requires Position(dir).None? && w.follow(dir).Ok? && Position(p) == Some(1)
    ensures var pushed := Pushd(names, [dir], w);
            pushed.Ok? && Popd(pushed.value, [p], w) == Chngd(names, [dir], home, w)
    ensures var there := w.follow(dir).value;
            there != "" && w.chdir(there) ==> Chngd(names, [], there, w) == Chngd(names, [dir], home, w)
  {
    var there := w.follow(dir).value;
    var r := [there] + names;
    assert r[..1] + r[2..] == names[0 := there];
  }

  /** pushd alone exchanges the first two: dropping the second one then is what popd does. */
  lemma SwapThenDrop(names: Names, p: string, w: World)
    requires |names| > 1 && w.chdir(names[1]) && Position(p) == Some(1)
    ensures var r := Pushd(names, [], w);
            r.Ok? && r.value[1] == names[0] && Popd(r.value, [p], w) == Popd(names, [], w)
  {
    var r := [names[1], names[0]] + names[2..];
    assert r[..1] + r[2..] == names[1..];
  }

  lemma SecondFirst(names: Names)
    requires |names| > 1
    ensures [names[1]] + (names[..1] + names[2..]) == [names[1], names[0]] + names[2..]
  {
  }

  // ----- The ring

  class Directory {
    var next: Directory?
    var prev: Directory?
    const name: string

    constructor (name: string)
      ensures this.name == name
    {
      this.name := name;
      next, prev := null, null;
    }
  }

  function NamesOf(ds: seq<Directory>): (r: seq<string>)
    ensures |r| == |ds| && forall i :: 0 <= i < |ds| ==> r[i] == ds[i].name
  {
    seq(|ds|, i requires 0 <= i < |ds| => ds[i].name)
  }

  /** Positions in a ring of n records, one step on by prev and by next. */
  function Onward(i: nat, n: nat): nat {
    if i + 1 == n then 0 else i + 1
  }

  function Back(i: nat, n: nat): nat
    requires i < n
  {
    if i == 0 then n - 1 else i - 1
  }

  ghost predicate Distinct(loop: seq<Directory>) {
    forall i, j :: 0 <= i < j < |loop| ==> loop[i] != loop[j]
  }

  /** The records are linked in the order of the sequence, and the last to the first. */
  ghost predicate Linked(loop: seq<Directory>)
    reads loop
  {
    && Distinct(loop)
    && (forall i {:trigger loop[i].prev} :: 0 <= i < |loop| ==> loop[i].prev == loop[Onward(i, |loop|)])
    && (forall i {:trigger loop[i].next} :: 0 <= i < |loop| ==> loop[i].next == loop[Back(i, |loop|)])
  }

  /** A ring without its record k is linked once the neighbours of k point past it. */
  lemma LinkedWithout(l: seq<Directory>, k: nat)
    requires 1 <= k < |l| && |l| >= 3 && Distinct(l)
    requires forall j {:trigger l[j].prev} :: 0 <= j < |l| && j != k
               ==> l[j].prev == if j == k - 1 then l[Onward(k, |l|)] else l[Onward(j, |l|)]
    requires forall j {:trigger l[j].next} :: 0 <= j < |l| && j != k
               ==> l[j].next == if j == Onward(k, |l|) then l[k - 1] else l[Back(j, |l|)]
    ensures Linked(l[..k] + l[k + 1..])
  {
    var m := l[..k] + l[k + 1..];
    forall i | 0 <= i < |m| ensures m[i].prev == m[Onward(i, |m|)] {
      assert m[i] == l[if i < k then i else i + 1];
    }
    forall i | 0 <= i < |m| ensures m[i].next == m[Back(i, |m|)] {
      assert m[i] == l[if i < k then i else i + 1];
    }
  }

  /** A ring with a record put in at position k. */
  lemma WithAt(l: seq<Directory>, dp: Directory, k: nat, i: nat)
    requires k < |l| && i <= |l|
    ensures (l[..k] + [dp] + l[k..])[i] == if i < k then l[i] else if i == k then dp else l[i - 1]
  {
  }

  lemma PrevWith(l: seq<Directory>, dp: Directory, k: nat, i: nat)
    requires 1 <= k < |l| && i <= |l| && dp.prev == l[k]
    requires forall j {:trigger l[j].prev} :: 0 <= j < |l|
               ==> l[j].prev == if j == k - 1 then dp else l[Onward(j, |l|)]
    ensures var m := l[..k] + [dp] + l[k..];
            m[i].prev == m[Onward(i, |m|)]
  {
    WithAt(l, dp, k, i);
    WithAt(l, dp, k, Onward(i, |l| + 1));
  }

  lemma NextWith(l: seq<Directory>, dp: Directory, k: nat, i: nat)
    requires 1 <= k < |l| && i <= |l| && dp.next == l[k - 1]
    requires forall j {:trigger l[j].next} :: 0 <= j < |l|
               ==> l[j].next == if j == k then dp else l[Back(j, |l|)]
    ensures var m := l[..k] + [dp] + l[k..];
            m[i].next == m[Back(i, |m|)]
  {
    WithAt(l, dp, k, i);
    WithAt(l, dp, k, Back(i, |l| + 1));
  }

  lemma DistinctWith(l: seq<Directory>, dp: Directory, k: nat)
    requires k < |l| && Distinct(l) && dp !in l
    ensures Distinct(l[..k] + [dp] + l[k..])
  {
  }

  lemma LinkedWith(l: seq<Directory>, dp: Directory, k: nat)
    requires 1 <= k < |l| && Distinct(l) && dp !in l
    requires dp.prev == l[k] && dp.next == l[k - 1]
    requires forall j {:trigger l[j].prev} :: 0 <= j < |l|
               ==> l[j].prev == if j == k - 1 then dp else l[Onward(j, |l|)]
    requires forall j {:trigger l[j].next} :: 0 <= j < |l|
               ==> l[j].next == if j == k then dp else l[Back(j, |l|)]
    ensures Linked(l[..k] + [dp] + l[k..])
  {
    var m := l[..k] + [dp] + l[k..];
    DistinctWith(l, dp, k);
    forall i | 0 <= i < |m| ensures m[i].prev == m[Onward(i, |m|)] {
      PrevWith(l, dp, k, i);
    }
    forall i | 0 <= i < |m| ensures m[i].next == m[Back(i, |m|)] {
      NextWith(l, dp, k, i);
    }
  }

  /** A ring with another record in place of its record k. */
  lemma LinkedReplaced(l: seq<Directory>, dp: Directory, k: nat)
    requires 1 <= k < |l| && Distinct(l) && dp !in l
    requires dp.prev == l[Onward(k, |l|)] && dp.next == l[k - 1]
    requires forall j {:trigger l[j].prev} :: 0 <= j < |l| && j != k
               ==> l[j].prev == if j == k - 1 then dp else l[Onward(j, |l|)]
    requires forall j {:trigger l[j].next} :: 0 <= j < |l| && j != k
               ==> l[j].next == if j == Onward(k, |l|) then dp else l[Back(j, |l|)]
    ensures Linked(l[k := dp])
  {
    var m := l[k := dp];
    forall i | 0 <= i < |m| ensures m[i].prev == m[Onward(i, |m|)] {
      assert i != k ==> m[i] == l[i];
    }
    forall i | 0 <= i < |m| ensures m[i].next == m[Back(i, |m|)] {
      assert i != k ==> m[i] == l[i];
    }
  }

  /** The directories as printdirs meets them: from position `at` on by prev, past the sentinel. */
  function View<T>(loop: seq<T>, at: nat): (v: seq<T>)
    requires 1 <= at < |loop|
    ensures |v| == |loop| - 1 && v[0] == loop[at]
  {
    loop[at..] + loop[1..at]
  }

  /** Where the n-th directory of the view stands in the ring. */
  function Place(len: nat, at: nat, n: nat): (k: nat)
    requires 1 <= at < len && n < len - 1
    ensures 1 <= k < len && (k == at <==> n == 0)
  {
    if at + n < len then at + n else at + n - len + 1
  }

  function Without<T>(s: seq<T>, k: nat): seq<T>
    requires k < |s|
  {
    s[..k] + s[k + 1..]
  }

  function With<T>(s: seq<T>, k: nat, x: T): seq<T>
    requires k < |s|
  {
    s[..k] + [x] + s[k..]
  }

  /** A position after the record k has gone. */
  function Moved(i: nat, k: nat): nat
    requires i < k || i > 0
  {
    if i < k then i else i - 1
  }

  /** The names follow the records. */
  lemma NamesFollow(l: seq<Directory>, k: nat, dp: Directory)
    requires k < |l|
    ensures NamesOf(Without(l, k)) == Without(NamesOf(l), k)
    ensures NamesOf(With(l, k, dp)) == With(NamesOf(l), k, dp.name)
    ensures NamesOf(l[k := dp]) == NamesOf(l)[k := dp.name]
  {
  }

  lemma ViewAt<T>(loop: seq<T>, at: nat, n: nat)
    requires 1 <= at < |loop| && n < |loop| - 1
    ensures View(loop, at)[n] == loop[Place(|loop|, at, n)]
  {
  }

  /** Moving the working directory alone rotates the view. */
  lemma ViewRotated<T>(loop: seq<T>, at: nat, n: nat)
    requires 1 <= at < |loop| && n < |loop| - 1
    ensures var v := View(loop, at);
            View(loop, Place(|loop|, at, n)) == v[n..] + v[..n]
  {
    var v, k := View(loop, at), Place(|loop|, at, n);
    var lhs, rhs := View(loop, k), v[n..] + v[..n];
    forall i | 0 <= i < |v| ensures lhs[i] == rhs[i] {
      ViewAt(loop, k, i);
      var m := if n + i < |v| then n + i else n + i - |v|;
      assert rhs[i] == v[m];
      ViewAt(loop, at, m);
    }
  }

  /** Taking out the first directory and going to the n-th. */
  lemma ViewDropFirst<T>(loop: seq<T>, at: nat, n: nat)
    requires 1 <= at < |loop| && 0 < n < |loop| - 1
    ensures var v, k := View(loop, at), Place(|loop|, at, n);
            1 <= Moved(k, at) < |loop| - 1
            && Without(loop, at)[Moved(k, at)] == v[n]
            && View(Without(loop, at), Moved(k, at)) == v[n..] + v[1..n]
  {
    var v, k, rest := View(loop, at), Place(|loop|, at, n), Without(loop, at);
    var to := Moved(k, at);
    var lhs, rhs := View(rest, to), v[n..] + v[1..n];
    forall i | 0 <= i < |rest| - 1 ensures lhs[i] == rhs[i] {
      ViewAt(rest, to, i);
      var m := if n + i < |v| then n + i else n + i - |v| + 1;
      assert rhs[i] == v[m];
      ViewAt(loop, at, m);
    }
  }

  /** Taking out the n-th directory and staying. */
  lemma ViewDropNth<T>(loop: seq<T>, at: nat, n: nat)
    requires 1 <= at < |loop| && 0 < n < |loop| - 1
    ensures var v, k := View(loop, at), Place(|loop|, at, n);
            1 <= Moved(at, k) < |loop| - 1
            && Without(loop, k)[Moved(at, k)] == loop[at]
            && View(Without(loop, k), Moved(at, k)) == Without(v, n)
  {
    var v, k := View(loop, at), Place(|loop|, at, n);
    var rest, to := Without(loop, k), Moved(at, k);
    var lhs, rhs := View(rest, to), Without(v, n);
    forall i | 0 <= i < |rest| - 1 ensures lhs[i] == rhs[i] {
      ViewAt(rest, to, i);
      var m := if i < n then i else i + 1;
      assert rhs[i] == v[m];
      ViewAt(loop, at, m);
    }
  }

  lemma ViewInsert<T>(loop: seq<T>, at: nat, x: T)
    requires 1 <= at < |loop|
    ensures View(With(loop, at, x), at) == [x] + View(loop, at)
  {
  }

  class Ring {
    const head: Directory              // dhead, the sentinel
    var dcwd: Directory
    var cwd: string                    // the shell variable that dset keeps
    ghost var loop: seq<Directory>     // the records met from the sentinel on by prev
    ghost var at: nat

    /** A well-formed ring: prev and next are inverse, one sentinel, dcwd another member. */
    ghost predicate Valid()
      reads this, loop
    {
      && |loop| >= 2 && loop[0] == head && 1 <= at < |loop| && dcwd == loop[at]
      && Linked(loop) && cwd == dcwd.name
    }

    ghost function Dirs(): (v: Names)
      requires Valid()
      reads this, loop
    {
      View(NamesOf(loop), at)
    }

    /** dinit: a ring of the sentinel and one directory. */
    constructor (name: string)
      ensures Valid() && fresh(loop) && Dirs() == [name]
    {
      var h := new Directory("");
      var d := new Directory(name);
      h.next, h.prev := d, d;
      d.next, d.prev := h, h;
      head, dcwd, cwd := h, d, name;
      loop, at := [h, d], 1;
    }

    /** dnewcwd with dset. */
    method NewCwd(dp: Directory, ghost k: nat)
      requires |loop| >= 2 && loop[0] == head && Linked(loop) && 1 <= k < |loop| && dp == loop[k]
      modifies this`dcwd, this`cwd, this`at
      ensures Valid() && at == k && dcwd == dp
    {
      dcwd, cwd, at := dp, dp.name, k;
    }

    /** Take a record out of the ring. */
    method Unlink(dp: Directory, ghost k: nat)
      requires |loop| >= 3 && loop[0] == head && Linked(loop) && 1 <= k < |loop| && dp == loop[k]
      modifies this`loop, loop`next, loop`prev
      ensures loop == Without(old(loop), k) && Linked(loop) && dp !in loop
      ensures NamesOf(loop) == Without(NamesOf(old(loop)), k)
    {
      dp.prev.next := dp.next;
      dp.next.prev := dp.prev;
      LinkedWithout(loop, k);
      NamesFollow(loop, k, dp);
      loop := Without(loop, k);
    }

    /** Put a record in front of the one at position k, on its `next` side. */
    method LinkNext(dp: Directory, d: Directory, ghost k: nat)
      requires |loop| >= 2 && loop[0] == head && Linked(loop) && 1 <= k < |loop| && d == loop[k] && dp !in loop
      modifies this`loop, loop`next, loop`prev, dp`next, dp`prev
      ensures loop == With(old(loop), k, dp) && Linked(loop)
      ensures NamesOf(loop) == With(NamesOf(old(loop)), k, dp.name)
    {
      dp.prev := d;
      dp.next := d.next;
      d.next.prev := dp;
      d.next := dp;
      LinkedWith(loop, dp, k);
      NamesFollow(loop, k, dp);
      loop := With(loop, k, dp);
    }

    /** Put a record in the place of dcwd. */
    method Replace(dp: Directory)
      requires Valid() && dp !in loop
      modifies this`loop, this`dcwd, this`cwd, loop`next, loop`prev, dp`next, dp`prev
      ensures Valid() && loop == old(loop)[at := dp] && dcwd == dp
      ensures Dirs() == old(Dirs())[0 := dp.name]
    {
      dp.next := dcwd.next;
      dp.prev := dcwd.prev;
      dp.prev.next := dp;
      dp.next.prev := dp;
      LinkedReplaced(loop, dp, at);
      NamesFollow(loop, at, dp);
      loop := loop[at := dp];
      dcwd, cwd := dp, dp.name;
    }

    /** dfind: the directory that a "+n" word means, or none if the word is not of that form. */
    method FindDir(arg: string) returns (r: Result<Option<Directory>>)
      requires Valid()
      ensures match Find(Dirs(), arg)
              case Err(e) => r == Err(e)
              case Ok(None) => r == Ok(None)
              case Ok(Some(n)) => 0 < n < |loop| - 1 && r == Ok(Some(View(loop, at)[n]))
    {
      if Position(arg).None? {
        return Ok(None);
      }
      ghost var n := 0;
      var i := Position(arg).value;
      var dp := dcwd;
      while i != 0
        invariant 0 <= i && i + n == Position(arg).value && n < |loop| - 1
        invariant dp == View(loop, at)[n]
        decreases i
      {
        ViewAt(loop, at, n);
        var p := dp.prev;
        if p == head {
          p := p.prev;
        }
        dp := p;
        if dp == dcwd {
          return Err(Deep);
        }
        n := n + 1;
        ViewAt(loop, at, n);
        i := i - 1;
      }
      return Ok(Some(dp));
    }

    /** The place in the stack that a word means, 0 if none. */
    ghost function Index(arg: string): nat
      requires Valid()
      reads this, loop
    {
      match Find(Dirs(), arg)
      case Ok(Some(n)) => n
      case _ => 0
    }

    /** cd +n: the first directory leaves, the n-th becomes the first. */
    method LeaveFor(dp: Directory, ghost n: nat)
      requires Valid() && 0 < n < |loop| - 1 && dp == View(loop, at)[n]
      modifies this`loop, this`dcwd, this`cwd, this`at, loop`next, loop`prev
      ensures Valid() && forall d :: d in loop ==> d in old(loop)
      ensures Dirs() == old(Dirs())[n..] + old(Dirs())[1..n]
    {
      ViewDropFirst(loop, at, n);
      ViewDropFirst(NamesOf(loop), at, n);
      ghost var k := Moved(Place(|loop|, at, n), at);
      Unlink(dcwd, at);
      NewCwd(dp, k);
    }

    /** The n-th directory leaves. */
    method Discard(dp: Directory, ghost n: nat)
      requires Valid() && 0 < n < |loop| - 1 && dp == View(loop, at)[n]
      modifies this`loop, this`dcwd, this`cwd, this`at, loop`next, loop`prev
      ensures Valid() && dcwd == old(dcwd) && dp !in loop
      ensures loop == Without(old(loop), Place(|old(loop)|, old(at), n))
      ensures Dirs() == old(Dirs())[..n] + old(Dirs())[n + 1..]
    {
      ViewAt(loop, at, n);
      ViewDropNth(loop, at, n);
      ViewDropNth(NamesOf(loop), at, n);
      ghost var k := Place(|loop|, at, n);
      ghost var to := Moved(at, k);
      Unlink(dp, k);
      NewCwd(dcwd, to);
    }

    /** A record outside the ring goes on top. */
    method PutOnTop(dp: Directory)
      requires Valid() && dp !in loop
      modifies this`loop, this`dcwd, this`cwd, this`at, loop`next, loop`prev, dp`next, dp`prev
      ensures Valid() && dcwd == dp && forall d :: d in loop ==> d in old(loop) || d == dp
      ensures Dirs() == [dp.name] + old(Dirs())
    {
      ViewInsert(NamesOf(loop), at, dp.name);
      LinkNext(dp, dcwd, at);
      NewCwd(dp, at);
      assert loop == With(old(loop), at, dp);
    }

    /** Go to the n-th directory. */
    method Turn(dp: Directory, ghost n: nat)
      requires Valid() && n < |loop| - 1 && dp == View(loop, at)[n]
      modifies this`dcwd, this`cwd, this`at
      ensures Valid() && Dirs() == Rotate(old(Dirs()), n)
    {
      ViewAt(loop, at, n);
      ViewRotated(NamesOf(loop), at, n);
      NewCwd(dp, Place(|loop|, at, n));
    }

    /** The directory after the first one, which is the first itself when there is no other. */
    method Second() returns (dp: Directory)
      requires Valid()
      ensures dp == View(loop, at)[if |loop| == 2 then 0 else 1]
    {
      dp := dcwd.prev;
      if dp == head {
        dp := head.prev;
      }
      if |loop| > 2 {
        ViewAt(loop, at, 1);
      }
    }

    /** The first directory leaves. */
    method DropFirst(p: Directory)
      requires Valid() && |loop| > 2 && p == View(loop, at)[1]
      modifies this`loop, this`dcwd, this`cwd, this`at, loop`next, loop`prev
      ensures Valid() && forall d :: d in loop ==> d in old(loop)
      ensures Dirs() == old(Dirs())[1..]
    {
      ghost var names := Dirs();
      LeaveFor(p, 1);
      assert names[1..] + names[1..1] == names[1..];
    }

    /** The first two directories change places. */
    method Swap(dp: Directory)
      requires Valid() && |loop| > 2 && dp == View(loop, at)[1]
      modifies this`loop, this`dcwd, this`cwd, this`at, loop`next, loop`prev
      ensures Valid() && forall d :: d in loop ==> d in old(loop)
      ensures Dirs() == [old(Dirs())[1], old(Dirs())[0]] + old(Dirs())[2..]
    {
      ViewAt(loop, at, 1);
      NameAt(1);
      assert dp in loop;
      SecondFirst(Dirs());
      Discard(dp, 1);
      PutOnTop(dp);
    }

    lemma NameAt(n: nat)
      requires Valid() && n < |loop| - 1
      ensures View(loop, at)[n].name == Dirs()[n]
    {
    }

    /** Both neighbours are the sentinel exactly when there is one directory. */
    lemma Alone(k: nat)
      requires Valid() && 1 <= k < |loop|
      ensures loop[k].prev == head && loop[k].next == head <==> |loop| == 2
    {
    }

    /** dochngd, where `v` holds the words after any options. */
    method DoChngd(v: seq<string>, home: string, w: World) returns (r: Option<Error>)
      requires Valid()
      modifies this, loop`next, loop`prev
      ensures Valid() && forall d :: d in loop ==> d in old(loop) || fresh(d)
      ensures Chngd(old(Dirs()), v, home, w) == if r.None? then Ok(Dirs()) else Err(r.value)
      ensures r.Some? ==> Dirs() == old(Dirs())
    {
      var cp := home;
      if |v| == 0 {
        if home == "" {
          return Some(NoHome);
        }
        if !w.chdir(home) {
          return Some(CantChange(home));
        }
      } else if |v| > 1 {
        return Some(TooMany);
      } else {
        var found := FindDir(v[0]);
        ghost var n := Index(v[0]);
        if found.Err? {
          return Some(found.error);
        }
        if found.value.Some? {
          var dp := found.value.value;
          NameAt(n);
          if !w.chdir(dp.name) {
            return Some(CantChange(dp.name));
          }
          LeaveFor(dp, n);
          return None;
        }
        var f := w.follow(v[0]);
        if f.Err? {
          return Some(f.error);
        }
        cp := f.value;
      }
      var dp := new Directory(cp);
      Replace(dp);
      return None;
    }

    method DoPushd(v: seq<string>, w: World) returns (r: Option<Error>)
      requires Valid()
      modifies this, loop`next, loop`prev
      ensures Valid() && forall d :: d in loop ==> d in old(loop) || fresh(d)
      ensures Pushd(old(Dirs()), v, w) == if r.None? then Ok(Dirs()) else Err(r.value)
      ensures r.Some? ==> Dirs() == old(Dirs())
    {
      if |v| == 0 {
        var dp := Second();
        if dp == dcwd {
          return Some(NoDir);
        }
        NameAt(1);
        if !w.chdir(dp.name) {
          return Some(CantChange(dp.name));
        }
        Swap(dp);
        return None;
      }
      if |v| > 1 {
        return Some(TooMany);
      }
      var found := FindDir(v[0]);
      ghost var n := Index(v[0]);
      if found.Err? {
        return Some(found.error);
      }
      if found.value.Some? {
        var dp := found.value.value;
        NameAt(n);
        if !w.chdir(dp.name) {
          return Some(CantChange(dp.name));
        }
        Turn(dp, n);
        return None;
      }
      var f := w.follow(v[0]);
      if f.Err? {
        return Some(f.error);
      }
      var dp := new Directory(f.value);
      PutOnTop(dp);
      return None;
    }

    /** The directory that popd is to discard: the first, or the one its word finds. */
    method PopTarget(v: seq<string>, ghost w: World) returns (r: Result<Directory>, ghost n: nat)
      requires Valid()
      ensures r.Err? ==> Popd(Dirs(), v, w) == Err(r.error)
      ensures r.Ok? ==> n < |loop| - 1 && r.value == View(loop, at)[n]
      ensures r.Ok? && n == 0 ==> v == []
      ensures r.Ok? && n > 0 ==> n < |Dirs()| && Popd(Dirs(), v, w) == Ok(Dirs()[..n] + Dirs()[n + 1..])
    {
      if |v| == 0 {
        return Ok(dcwd), 0;
      } else if |v| > 1 {
        return Err(TooMany), 0;
      }
      var found := FindDir(v[0]);
      n := Index(v[0]);
      if found.Err? {
        return Err(found.error), 0;
      }
      if found.value.None? {
        return Err(BadDir), 0;
      }
      return Ok(found.value.value), n;
    }

    method DoPopd(v: seq<string>, w: World) returns (r: Option<Error>)
      requires Valid()
      modifies this, loop`next, loop`prev
      ensures Valid() && forall d :: d in loop ==> d in old(loop) || fresh(d)
      ensures Popd(old(Dirs()), v, w) == if r.None? then Ok(Dirs()) else Err(r.value)
      ensures r.Some? ==> Dirs() == old(Dirs())
    {
      var target, n := PopTarget(v, w);
      if target.Err? {
        return Some(target.error);
      }
      var dp := target.value;
      ViewAt(loop, at, n);
      Alone(Place(|loop|, at, n));
      if dp.prev == head && dp.next == head {
        return Some(Empty);
      }
      if dp == dcwd {
        var p := Second();
        NameAt(1);
        if !w.chdir(p.name) {
          return Some(CantChange(p.name));
        }
        DropFirst(p);
      } else {
        Discard(dp, n);
      }
      return None;
    }
  }
}
