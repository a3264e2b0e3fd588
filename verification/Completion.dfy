/**
  File name completion of the C shell (tsearch, recognize, is_prefix, is_suffix, ignored and
  print_by_column of usr/src/bin/csh/file.c).
 */
module Completion {
  const MAXNAMLEN: nat := 255

  // ----- Specification

  predicate IsSuffixOf(t: string, s: string) {
    |t| <= |s| && s[|s| - |t|..] == t
  }

  predicate Ignored(entry: string, fignore: seq<string>) {
    exists i :: 0 <= i < |fignore| && IsSuffixOf(fignore[i], entry)
  }

  /** An entry that the typed name may stand for; dot files only if a dot was typed. */
  predicate Matches(name: string, entry: string, lognames: bool) {
    name <= entry && !(name == "" && entry != "" && entry[0] == '.' && !lognames)
  }

  datatype Query = Query(name: string, lognames: bool, fignore: seq<string>)

  predicate Wanted(q: Query, entry: string, ignoring: bool) {
    Matches(q.name, entry, q.lognames) && !(ignoring && Ignored(entry, q.fignore))
  }

  function Filtered(entries: seq<string>, q: Query, ignoring: bool): seq<string> {
    if entries == [] then []
    else
      var last := entries[|entries| - 1];
      Filtered(entries[..|entries| - 1], q, ignoring) + (if Wanted(q, last, ignoring) then [last] else [])
  }

  lemma {:induction false} FilteredMembers(entries: seq<string>, q: Query, ignoring: bool)
    ensures forall e :: e in Filtered(entries, q, ignoring) <==> e in entries && Wanted(q, e, ignoring)
  {
    if entries != [] {
      var front, last := entries[..|entries| - 1], entries[|entries| - 1];
      FilteredMembers(front, q, ignoring);
      assert entries == front + [last];
    }
  }

  /** The entries that count: those with an ignored suffix only if there are no others. */
  function Candidates(entries: seq<string>, q: Query): seq<string> {
    var kept := Filtered(entries, q, true);
    if kept != [] then kept else Filtered(entries, q, false)
  }

  /** An entry that matches is left out only if it has an ignored suffix and another one has none. */
  lemma CandidatesAre(entries: seq<string>, q: Query, e: string)
    ensures Candidates(entries, q) == [] <==> forall x :: x in entries ==> !Matches(q.name, x, q.lognames)
    ensures e in Candidates(entries, q) <==>
            && e in entries && Matches(q.name, e, q.lognames)
            && (Ignored(e, q.fignore) ==>
                forall x :: x in entries && Matches(q.name, x, q.lognames) ==> Ignored(x, q.fignore))
  {
    FilteredMembers(entries, q, true);
    FilteredMembers(entries, q, false);
    var kept, all := Filtered(entries, q, true), Filtered(entries, q, false);
    if kept != [] {
      assert kept[0] in kept;
    } else if all != [] {
      assert all[0] in all;
    }
  }

  /** With nothing typed the dot files are hidden, and among the users or after a dot nothing is. */
  lemma DotFiles(entries: seq<string>, q: Query, e: string)
    requires e in entries && q.fignore == []
    ensures e in Candidates(entries, q) <==>
            q.name <= e && (q.name != "" || q.lognames || e == "" || e[0] != '.')
  {
    CandidatesAre(entries, q, e);
  }

  /** A suffix is what is left behind some beginning. */
  lemma SuffixMeans(t: string, s: string)
    ensures IsSuffixOf(t, s) <==> exists p: string :: p + t == s
  {
    if IsSuffixOf(t, s) {
      assert s[..|s| - |t|] + t == s;
    }
    forall p: string | p + t == s ensures IsSuffixOf(t, s) {
      assert (p + t)[|p|..] == t;
    }
  }

  /** The longest name, as far as a name buffer goes, that all of some entries start with. */
  ghost predicate IsExtension(x: string, entries: seq<string>) {
    && (forall i :: 0 <= i < |entries| ==> x <= entries[i])
    && |x| <= MAXNAMLEN
    && (forall p: string {:trigger CommonTo(p, entries)} :: CommonTo(p, entries) && |p| <= MAXNAMLEN ==> p <= x)
  }

  predicate CommonTo(p: string, entries: seq<string>) {
    forall i :: 0 <= i < |entries| ==> p <= entries[i]
  }

  /** There is only one such name. */
  lemma ExtensionUnique(x: string, y: string, entries: seq<string>)
    requires IsExtension(x, entries) && IsExtension(y, entries)
    ensures x == y
  {
    assert CommonTo(x, entries) && CommonTo(y, entries);
  }

  lemma SameExtension(x: string, entries: seq<string>, others: seq<string>)
    requires IsExtension(x, entries) && forall e :: e in entries <==> e in others
    ensures IsExtension(x, others)
  {
    forall i | 0 <= i < |others| ensures x <= others[i] {
      assert others[i] in entries;
    }
    forall p: string | CommonTo(p, others) && |p| <= MAXNAMLEN ensures p <= x {
      forall i | 0 <= i < |entries| ensures p <= entries[i] {
        assert entries[i] in others;
      }
      assert CommonTo(p, entries);
    }
  }

  // ----- The code

  method IsPrefix(check: string, template: string) returns (r: bool)
    ensures r == (check <= template)
  {
    var k := 0;
    while k < |check|
      invariant k <= |check| && k <= |template| && check[..k] == template[..k]
    {
      if k == |template| || check[k] != template[k] {
        return false;
      }
      k := k + 1;
    }
    return true;
  }

  /** The comparison runs backwards over both strings, terminators included. */
  method IsSuffix(check: string, template: string) returns (r: bool)
    ensures r == IsSuffixOf(template, check)
  {
    var cs, ts := check + ['\0'], template + ['\0'];
    var c, t := |cs|, |ts|;
    assert IsSuffixOf(template, check) ==>
        forall k :: 0 <= k < |template| ==> template[k] == check[|check| - |template|..][k] == cs[|cs| - |ts| + k];
    while t > 0
      invariant 0 <= t <= |ts| && 0 <= c <= |cs| && |ts| - t == |cs| - c
      invariant forall k :: t <= k < |ts| ==> ts[k] == cs[k - t + c]
    {
      if c == 0 || ts[t - 1] != cs[c - 1] {
        return false;
      }
      c, t := c - 1, t - 1;
    }
    forall k | 0 <= k < |template| ensures check[|check| - |template|..][k] == template[k] {
      assert ts[k] == cs[k + c];
    }
    return true;
  }

  method IsIgnored(entry: string, fignore: seq<string>) returns (r: bool)
    ensures r == Ignored(entry, fignore)
  {
    for i := 0 to |fignore|
      invariant forall k :: 0 <= k < i ==> !IsSuffixOf(fignore[k], entry)
    {
      var suffix := IsSuffix(entry, fignore[i]);
      if suffix {
        return true;
      }
    }
    return false;
  }

  /** copyn into a name buffer. */
  function Copied(entry: string): string {
    if |entry| <= MAXNAMLEN then entry else entry[..MAXNAMLEN]
  }

  lemma FirstMatch(entry: string)
    ensures IsExtension(Copied(entry), [entry])
  {
    forall p: string | CommonTo(p, [entry]) && |p| <= MAXNAMLEN ensures p <= Copied(entry) {
      assert p <= [entry][0];
    }
  }

  /** One more match; stop when nothing beyond the typed name is common. */
  method Recognize(extended: string, entry: string, nameLength: nat, numitems: nat, ghost seen: seq<string>)
    returns (x: string, stop: bool)
    requires numitems > 0 && (numitems == 1 <==> seen == [])
    requires numitems > 1 ==> IsExtension(extended, seen)
    ensures IsExtension(x, seen + [entry])
    ensures stop == (numitems > 1 && |x| == nameLength)
  {
    if numitems == 1 {
      FirstMatch(entry);
      assert seen + [entry] == [entry];
      return Copied(entry), false;
    }
    var len := 0;
    while len < |extended| && len < |entry| && extended[len] == entry[len]
      invariant len <= |extended| && len <= |entry| && extended[..len] == entry[..len]
    {
      len := len + 1;
    }
    x := extended[..len];
    Shortened(extended, entry, len, seen);
    stop := len == nameLength;
  }

  lemma Shortened(extended: string, entry: string, len: nat, seen: seq<string>)
    requires IsExtension(extended, seen) && len <= |extended| && len <= |entry| && extended[..len] == entry[..len]
    requires len == |extended| || len == |entry| || extended[len] != entry[len]
    ensures IsExtension(extended[..len], seen + [entry])
  {
    var x, all := extended[..len], seen + [entry];
    forall p: string | CommonTo(p, all) && |p| <= MAXNAMLEN ensures p <= x {
      assert forall i :: 0 <= i < |seen| ==> seen[i] == all[i];
      assert CommonTo(p, seen);
      assert p <= all[|seen|] && p <= extended;
      assert |p| <= len;
    }
  }

  lemma FilteredOneMore(entries: seq<string>, k: nat, q: Query, ignoring: bool)
    requires k < |entries|
    ensures Filtered(entries[..k + 1], q, ignoring) ==
            Filtered(entries[..k], q, ignoring) + (if Wanted(q, entries[k], ignoring) then [entries[k]] else [])
  {
    assert entries[..k + 1][..k] == entries[..k];
  }

  lemma AllStartWithName(entries: seq<string>, q: Query, ignoring: bool)
    ensures CommonTo(q.name, Filtered(entries, q, ignoring))
  {
    var all := Filtered(entries, q, ignoring);
    FilteredMembers(entries, q, ignoring);
    forall i | 0 <= i < |all| ensures q.name <= all[i] {
      assert all[i] in all;
    }
  }

  /** Once only the typed name is common to some entries, no further ones can change that. */
  lemma StopIsSafe(x: string, q: Query, seen: seq<string>, entries: seq<string>, ignoring: bool)
    requires IsExtension(x, seen) && seen <= Filtered(entries, q, ignoring) && |x| == |q.name| && seen != []
    ensures IsExtension(x, Filtered(entries, q, ignoring))
  {
    var all := Filtered(entries, q, ignoring);
    AllStartWithName(entries, q, ignoring);
    assert q.name <= all[0] == seen[0] && x <= seen[0];
    assert x == q.name;
    forall p: string | CommonTo(p, all) && |p| <= MAXNAMLEN ensures p <= x {
      assert forall i :: 0 <= i < |seen| ==> seen[i] == all[i];
      assert CommonTo(p, seen);
    }
  }

  lemma {:induction false} FilteredGrows(entries: seq<string>, k: nat, q: Query, ignoring: bool)
    requires k <= |entries|
    ensures Filtered(entries[..k], q, ignoring) <= Filtered(entries, q, ignoring)
  {
    if k == |entries| {
      assert entries[..k] == entries;
    } else {
      var front := entries[..|entries| - 1];
      FilteredGrows(front, k, q, ignoring);
      assert front[..k] == entries[..k];
    }
  }

  /** The tests on one entry: does it qualify, or would it but for its suffix. */
  method Classify(entry: string, q: Query, ignoring: bool) returns (wanted: bool, skip: bool)
    ensures wanted == Wanted(q, entry, ignoring)
    ensures skip == (!wanted && Wanted(q, entry, false))
  {
    var prefix := IsPrefix(q.name, entry);
    if !prefix || (q.name == "" && entry != "" && entry[0] == '.' && !q.lognames) {
      return false, false;
    }
    skip := false;
    if ignoring {
      skip := IsIgnored(entry, q.fignore);
    }
    wanted := !skip;
  }

  /** One pass over the directory. */
  method Scan(entries: seq<string>, q: Query, ignoring: bool) returns (numitems: nat, nignored: nat, x: string)
    requires |q.name| <= MAXNAMLEN
    ensures var all := Filtered(entries, q, ignoring);
            && (numitems == 0 <==> all == []) && (numitems == 1 <==> |all| == 1)
            && (numitems > 0 ==> IsExtension(x, all))
            && (numitems == 0 ==> nignored == |Filtered(entries, q, false)|)
  {
    numitems, nignored, x := 0, 0, "";
    for k := 0 to |entries|
      invariant numitems == |Filtered(entries[..k], q, ignoring)|
      invariant numitems > 0 ==> IsExtension(x, Filtered(entries[..k], q, ignoring))
      invariant nignored + numitems == |Filtered(entries[..k], q, false)|
    {
      FilteredOneMore(entries, k, q, ignoring);
      FilteredOneMore(entries, k, q, false);
      var wanted, skip := Classify(entries[k], q, ignoring);
      ghost var seen := Filtered(entries[..k], q, ignoring);
      if skip {
        nignored := nignored + 1;
      }
      if wanted {
        numitems := numitems + 1;
        var stop;
        x, stop := Recognize(x, entries[k], |q.name|, numitems, seen);
        if stop {
          FilteredGrows(entries, k + 1, q, ignoring);
          StopIsSafe(x, q, seen + [entries[k]], entries, ignoring);
          return;
        }
      } else {
        assert seen + [] == seen;
      }
    }
    assert entries[..|entries|] == entries;
  }

  /** The answer of a search: how many were seen to qualify, told only as none, one or several, and the name. */
  ghost predicate IsAnswer(entries: seq<string>, q: Query, numitems: nat, x: string) {
    var all := Candidates(entries, q);
    && (numitems == 0 <==> all == []) && (numitems == 1 <==> |all| == 1)
    && (numitems > 0 ==> IsExtension(x, all) && q.name <= x)
  }

  /** RECOGNIZE: how many entries were seen to qualify, and what the typed name is extended to. */
  method Tsearch(entries: seq<string>, q: Query) returns (numitems: nat, x: string)
    requires |q.name| <= MAXNAMLEN
    ensures IsAnswer(entries, q, numitems, x)
  {
    var nignored;
    numitems, nignored, x := Scan(entries, q, true);
    if numitems == 0 && nignored > 0 {
      numitems, nignored, x := Scan(entries, q, false);
    }
    AllStartWithName(entries, q, true);
    AllStartWithName(entries, q, false);
  }

  lemma {:induction false} FilteredCounts(entries: seq<string>, q: Query, ignoring: bool, e: string)
    ensures multiset(Filtered(entries, q, ignoring))[e] == if Wanted(q, e, ignoring) then multiset(entries)[e] else 0
  {
    if entries != [] {
      var front, last := entries[..|entries| - 1], entries[|entries| - 1];
      FilteredCounts(front, q, ignoring, e);
      assert entries == front + [last];
    }
  }

  lemma SameFiltered(entries: seq<string>, others: seq<string>, q: Query, ignoring: bool)
    requires multiset(entries) == multiset(others)
    ensures multiset(Filtered(entries, q, ignoring)) == multiset(Filtered(others, q, ignoring))
  {
    forall e: string
      ensures multiset(Filtered(entries, q, ignoring))[e] == multiset(Filtered(others, q, ignoring))[e]
    {
      FilteredCounts(entries, q, ignoring, e);
      FilteredCounts(others, q, ignoring, e);
    }
  }

  /** The candidates of a directory do not depend on the order it is read in. */
  lemma SameCandidates(entries: seq<string>, others: seq<string>, q: Query)
    requires multiset(entries) == multiset(others)
    ensures multiset(Candidates(entries, q)) == multiset(Candidates(others, q))
  {
    SameFiltered(entries, others, q, true);
    SameFiltered(entries, others, q, false);
    var a, b := Filtered(entries, q, true), Filtered(others, q, true);
    assert |multiset(a)| == |a| && |multiset(b)| == |b|;
  }

  /** Searches of the same directory, read in any two orders, agree on the name and on none, one or several. */
  lemma OrderIrrelevant(entries: seq<string>, others: seq<string>, q: Query, m: nat, x: string, n: nat, y: string)
    requires multiset(entries) == multiset(others) && IsAnswer(entries, q, m, x) && IsAnswer(others, q, n, y)
    ensures (m == 0 <==> n == 0) && (m == 1 <==> n == 1) && (m > 0 ==> x == y)
  {
    SameCandidates(entries, others, q);
    var a, b := Candidates(entries, q), Candidates(others, q);
    assert |multiset(a)| == |a| && |multiset(b)| == |b|;
    if m > 0 {
      forall e: string ensures e in a <==> e in b {
        assert e in a <==> e in multiset(a);
        assert e in b <==> e in multiset(b);
      }
      SameExtension(x, a, b);
      ExtensionUnique(x, y, b);
    }
  }

  // ----- Listing in columns

  function Rows(count: nat, columns: nat): (rows: nat)
    requires columns > 0
  {
    (count + (columns - 1)) / columns
  }

  lemma RowsFit(count: nat, columns: nat)
    requires columns > 0
    ensures var rows := Rows(count, columns);
            rows * columns >= count && (rows == 0 <==> count == 0) && (rows > 0 ==> (rows - 1) * columns < count)
  {
  }

  lemma Monotone(j: nat, k: nat, rows: nat)
    requires j <= k
    ensures j * rows <= k * rows
  {
  }

  /** The item in row r and column c. */
  function Item(c: nat, r: nat, rows: nat): nat {
    if c == 0 then r else Item(c - 1, r, rows) + rows
  }

  lemma {:induction false} ItemIs(c: nat, r: nat, rows: nat)
    ensures Item(c, r, rows) == c * rows + r
  {
    if c > 0 {
      ItemIs(c - 1, r, rows);
    }
  }

  lemma {:induction false} ItemsGrow(c: nat, d: nat, r: nat, rows: nat)
    requires c <= d
    ensures Item(c, r, rows) <= Item(d, r, rows)
    decreases d
  {
    if c < d {
      ItemsGrow(c, d - 1, r, rows);
    }
  }

  /** Row r of the listing: the items r, r + rows, r + 2 * rows and so on. */
  ghost predicate IsRow(line: seq<nat>, r: nat, rows: nat, columns: nat, count: nat) {
    && |line| <= columns
    && (forall c :: 0 <= c < |line| ==> line[c] == Item(c, r, rows))
    && (|line| < columns ==> Item(|line|, r, rows) >= count)
  }

  predicate ListedAt(lines: seq<seq<nat>>, i: nat, r: int, c: int) {
    0 <= r < |lines| && 0 <= c < |lines[r]| && lines[r][c] == i
  }

  lemma InRow(line: seq<nat>, r: nat, rows: nat, columns: nat, count: nat, c: nat)
    requires IsRow(line, r, rows, columns, count) && c < columns && Item(c, r, rows) < count
    ensures c < |line|
  {
    if |line| <= c {
      ItemsGrow(|line|, c, r, rows);
    }
  }

  lemma RowAndColumn(count: nat, columns: nat, i: nat)
    requires columns > 0 && i < count
    ensures var rows := Rows(count, columns);
            rows > 0 && i / rows < columns && Item(i / rows, i % rows, rows) == i
  {
    RowsFit(count, columns);
    var rows := Rows(count, columns);
    var r, c := i % rows, i / rows;
    ItemIs(c, r, rows);
    if c >= columns {
      Monotone(columns, c, rows);
    }
  }

  lemma OnlyRowAndColumn(c: nat, r: nat, rows: nat)
    requires r < rows
    ensures Item(c, r, rows) / rows == c && Item(c, r, rows) % rows == r
  {
    ItemIs(c, r, rows);
    Division(c, r, rows);
  }

  /** Every item is listed, down the columns: item i stands in row i % rows and column i / rows. */
  lemma ListedOnce(lines: seq<seq<nat>>, count: nat, columns: nat, i: nat)
    requires columns > 0 && i < count && |lines| == Rows(count, columns)
    requires forall r :: 0 <= r < |lines| ==> IsRow(lines[r], r, |lines|, columns, count)
    ensures |lines| > 0 && ListedAt(lines, i, i % |lines|, i / |lines|)
    ensures forall r, c :: ListedAt(lines, i, r, c) ==> r == i % |lines| && c == i / |lines|
  {
    RowAndColumn(count, columns, i);
    var rows := |lines|;
    InRow(lines[i % rows], i % rows, rows, columns, count, i / rows);
    forall r, c | ListedAt(lines, i, r, c) ensures r == i % rows && c == i / rows {
      OnlyRowAndColumn(c, r, rows);
    }
  }

  lemma Division(c: nat, r: nat, rows: nat)
    requires r < rows
    ensures (c * rows + r) / rows == c && (c * rows + r) % rows == r
  {
    var q, m := (c * rows + r) / rows, (c * rows + r) % rows;
    assert q * rows + m == c * rows + r;
    if q < c {
      Monotone(q + 1, c, rows);
    } else if q > c {
      Monotone(c + 1, q, rows);
    }
  }

  method ItemAt(c: nat, r: nat, rows: nat) returns (i: nat)
    ensures i == Item(c, r, rows)
  {
    ItemIs(c, r, rows);
    return c * rows + r;
  }

  method PrintRow(r: nat, rows: nat, columns: nat, count: nat) returns (line: seq<nat>)
    ensures IsRow(line, r, rows, columns, count) && forall c :: 0 <= c < |line| ==> line[c] < count
  {
    line := [];
    for c := 0 to columns
      invariant |line| <= c && forall k :: 0 <= k < |line| ==> line[k] == Item(k, r, rows) < count
      invariant |line| < c ==> Item(|line|, r, rows) >= count
    {
      var i := ItemAt(c, r, rows);
      if i < count {
        ItemsGrow(|line|, c, r, rows);
        line := line + [i];
      }
    }
  }

  method ColumnsFor(items: seq<nat>, wsCol: nat) returns (columns: nat)
    ensures columns > 0
    ensures columns > 1 ==> forall i :: 0 <= i < |items| ==> columns * (items[i] + 2) <= wsCol
  {
    var maxwidth := 0;
    for i := 0 to |items|
      invariant forall k :: 0 <= k < i ==> items[k] <= maxwidth
    {
      maxwidth := if maxwidth > items[i] then maxwidth else items[i];
    }
    maxwidth := maxwidth + 2;
    columns := wsCol / maxwidth;
    if columns == 0 {
      return 1;
    }
    forall i | 0 <= i < |items| ensures columns * (items[i] + 2) <= wsCol {
      Monotone(items[i] + 2, maxwidth, columns);
    }
  }

  method PrintRows(rows: nat, columns: nat, count: nat) returns (lines: seq<seq<nat>>)
    ensures |lines| == rows && forall r :: 0 <= r < rows ==> IsRow(lines[r], r, rows, columns, count)
    ensures forall r :: 0 <= r < rows ==> forall c :: 0 <= c < |lines[r]| ==> lines[r][c] < count
  {
    lines := [];
    for r := 0 to rows
      invariant |lines| == r && forall k :: 0 <= k < r ==> IsRow(lines[k], k, rows, columns, count)
      invariant forall k :: 0 <= k < r ==> forall c :: 0 <= c < |lines[k]| ==> lines[k][c] < count
    {
      var line := PrintRow(r, rows, columns, count);
      lines := lines + [line];
    }
  }

  /** The items are given by their lengths; a row is the indices of the items on it. */
  method PrintByColumn(items: seq<nat>, wsCol: nat) returns (columns: nat, lines: seq<seq<nat>>)
    ensures columns > 0 && |lines| == Rows(|items|, columns)
    ensures forall r :: 0 <= r < |lines| ==> IsRow(lines[r], r, |lines|, columns, |items|)
    ensures forall r :: 0 <= r < |lines| ==> forall c :: 0 <= c < |lines[r]| ==> lines[r][c] < |items|
    ensures columns > 1 ==>
              forall i :: 0 <= i < |items| ==> columns * (items[i] + 2) <= if wsCol == 0 then 80 else wsCol
  {
    columns := ColumnsFor(items, if wsCol == 0 then 80 else wsCol);
    var rows := (|items| + (columns - 1)) / columns;
    lines := PrintRows(rows, columns, |items|);
  }
}
