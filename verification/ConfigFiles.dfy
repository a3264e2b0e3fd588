/**
  The stack of configuration files that includes open, the characters read from it and the
  errors counted on it (lgetc, lungetc, yyerror, pushfile, popfile and parse_config of
  ifconfigctl/parse.c).
 */
module ConfigFiles {
  import opened Numbers

  const EOF: int := -1
  const NUL: int := 0
  const NEWLINE: int := 10
  const BACKSLASH: int := 92
  const MAXPUSHBACK: nat := 128

  type Byte = x: int | 0 <= x < 256

  /** An open file: the bytes not yet read and the errors counted. */
  datatype File = File(stream: seq<Byte>, errors: nat)

  /** files[0] is topfile and the last one is file. */
  datatype State = State(files: seq<File>, pushback: seq<int>, parsebuf: Option<seq<int>>, parseindex: int)

  // ----- Specification

  function Last(files: seq<File>): File
    requires files != []
  {
    files[|files| - 1]
  }

  function Total(files: seq<File>): nat {
    if files == [] then 0 else Total(files[..|files| - 1]) + Last(files).errors
  }

  function WithLast(files: seq<File>, f: File): (r: seq<File>)
    requires files != []
    ensures |r| == |files| && Last(r) == f && r[..|r| - 1] == files[..|files| - 1]
  {
    files[..|files| - 1] + [f]
  }

  /** popfile, where a file is left: its errors go to the file that included it. */
  function Popped(files: seq<File>): (r: seq<File>)
    requires |files| > 1
    ensures |r| == |files| - 1
  {
    var rest := files[..|files| - 1];
    WithLast(rest, Last(rest).(errors := Last(rest).errors + Last(files).errors))
  }

  /** getc on a stream. */
  function Getc(s: seq<Byte>): (r: (int, seq<Byte>))
    ensures |r.1| <= |s| && -1 <= r.0 < 256
  {
    if s == [] then (EOF, s) else (s[0], s[1..])
  }

  /** A character outside quotes: backslash newline is skipped, any other backslash dropped. */
  function Unescaped(s: seq<Byte>): (r: (int, seq<Byte>))
    ensures |r.1| <= |s|
    decreases |s|
  {
    if s == [] || s[0] != BACKSLASH then Getc(s) else AfterBackslash(s[1..])
  }

  function AfterBackslash(s: seq<Byte>): (r: (int, seq<Byte>))
    ensures |r.1| <= |s|
    decreases |s|
  {
    if s != [] && s[0] == NEWLINE then Unescaped(s[1..]) else Getc(s)
  }

  /** The end of a file is passed over as long as another file included it. */
  function Resume(c: int, files: seq<File>): (r: (int, seq<File>))
    requires files != []
    ensures r.1 != []
    decreases |files|
  {
    if c != EOF || |files| == 1 then (c, files)
    else
      var below := Popped(files);
      var (c', s) := Getc(Last(below).stream);
      Resume(c', WithLast(below, Last(below).(stream := s)))
  }

  function FromFiles(files: seq<File>, quotec: int): (r: (int, seq<File>))
    requires files != []
    ensures r.1 != []
  {
    var f := Last(files);
    if quotec == 0 then
      var (c, s) := Unescaped(f.stream);
      Resume(c, WithLast(files, f.(stream := s)))
    else if f.stream != [] then (f.stream[0], WithLast(files, f.(stream := f.stream[1..])))
    else
      var counted := WithLast(files, f.(errors := f.errors + 1));
      if |files| == 1 then (EOF, counted) else (quotec, Popped(counted))
  }

  /** lgetc. */
  function Got(s: State, quotec: int): (r: (int, State))
    requires s.files != []
    ensures r.1.files != []
  {
    if s.parsebuf.Some? && 0 <= s.parseindex < |s.parsebuf.value| then
      (s.parsebuf.value[s.parseindex], s.(parseindex := s.parseindex + 1))
    else
      var t := if s.parsebuf.None? then s
               else if s.parseindex >= 0 then s.(parsebuf := None, parseindex := s.parseindex + 1)
               else s.(parseindex := s.parseindex + 1);
      if t.pushback != [] then
        (t.pushback[|t.pushback| - 1], t.(pushback := t.pushback[..|t.pushback| - 1]))
      else
        var (c, files) := FromFiles(t.files, quotec);
        (c, t.(files := files))
  }

  /** A byte or a char stored in a char, which is signed. */
  function AsChar(c: int): (r: int)
    ensures -128 <= c < 256 ==> -128 <= r < 128
  {
    if c < 128 then c else c - 256
  }

  /** lungetc. */
  function Ungot(s: State, c: int): (t: State)
    ensures t.files == s.files
  {
    if c == EOF then s
    else
      var t := if s.parsebuf.Some? then s.(parseindex := s.parseindex - 1) else s;
      if t.parsebuf.Some? && t.parseindex >= 0 then t
      else if |t.pushback| < MAXPUSHBACK - 1 then t.(pushback := t.pushback + [AsChar(c)]) else t
  }

  function Counted(files: seq<File>): (r: seq<File>)
    requires files != []
    ensures |r| == |files|
  {
    WithLast(files, Last(files).(errors := Last(files).errors + 1))
  }

  /** yyerror: an error more in the current file. */
  function Reported(s: State): (t: State)
    requires s.files != []
    ensures t.files != []
  {
    s.(files := Counted(s.files))
  }

  /** An included file is read from now on, behind a line end. */
  function Included(s: State, content: seq<Byte>): (t: State)
    ensures t.files != []
  {
    Ungot(s.(files := s.files + [File(content, 0)]), NEWLINE)
  }

  /** The errors that a read counts: a file that ends in a string. */
  function ReadErrors(s: State, quotec: int): nat
    requires s.files != []
  {
    if quotec != 0 && FromFile(s) && Last(s.files).stream == [] then 1 else 0
  }

  /** The next character comes from a file. */
  predicate FromFile(s: State) {
    s.pushback == [] && !(s.parsebuf.Some? && 0 <= s.parseindex < |s.parsebuf.value|)
  }

  /** What parse_config returns when yyparse left this state. */
  function Verdict(s: State): int
    requires s.files != []
  {
    if Last(s.files).errors != 0 then -1 else 0
  }

  function Opened(content: seq<Byte>): State {
    State([File(content, 0)], [], None, 0)
  }

  /** A 7-bit character with room in the pushback; in the middle of macro text, the one just read from it. */
  predicate CanGoBack(s: State, c: int) {
    && 0 <= c < 128 && |s.pushback| < MAXPUSHBACK - 1
    && (s.parsebuf.Some? && s.parseindex > 0 ==>
          s.parseindex <= |s.parsebuf.value| && s.parsebuf.value[s.parseindex - 1] == c)
  }

  /** Such a character, put back, is the next one read, and nothing else has changed. */
  lemma ReadBack(s: State, c: int, quotec: int)
    requires s.files != [] && CanGoBack(s, c)
    ensures Got(Ungot(s, c), quotec) == (c, s)
  {
    assert (s.pushback + [c])[..|s.pushback|] == s.pushback;
  }

  /** An 8-bit one comes back negative. */
  lemma ReadBackSigned(s: State, c: Byte, quotec: int)
    requires s.files != [] && c >= 128 && |s.pushback| < MAXPUSHBACK - 1 && s.parsebuf.None?
    ensures Got(Ungot(s, c), quotec) == (c - 256, s)
  {
    assert (s.pushback + [AsChar(c)])[..|s.pushback|] == s.pushback;
  }

  // ----- Conservation

  lemma TotalOfOne(f: File)
    ensures Total([f]) == f.errors
  {
    assert [f][..0] == [];
  }

  lemma TotalWithLast(files: seq<File>, f: File)
    requires files != []
    ensures Total(WithLast(files, f)) == Total(files) - Last(files).errors + f.errors
  {
    assert WithLast(files, f)[..|files| - 1] == files[..|files| - 1];
  }

  lemma TotalPushed(files: seq<File>, f: File)
    ensures Total(files + [f]) == Total(files) + f.errors
  {
    assert (files + [f])[..|files|] == files;
  }

  /** Leaving a file conserves the errors of all open files. */
  lemma PoppedConserves(files: seq<File>)
    requires |files| > 1
    ensures Total(Popped(files)) == Total(files)
  {
    var rest := files[..|files| - 1];
    TotalWithLast(rest, Last(rest).(errors := Last(rest).errors + Last(files).errors));
  }

  lemma {:induction false} ResumeConserves(c: int, files: seq<File>)
    requires files != []
    ensures Total(Resume(c, files).1) == Total(files)
    decreases |files|
  {
    if c == EOF && |files| > 1 {
      var below := Popped(files);
      PoppedConserves(files);
      var (c', s) := Getc(Last(below).stream);
      TotalWithLast(below, Last(below).(stream := s));
      ResumeConserves(c', WithLast(below, Last(below).(stream := s)));
    }
  }

  lemma FromFilesConserves(files: seq<File>, quotec: int)
    requires files != []
    ensures Total(FromFiles(files, quotec).1) ==
            Total(files) + if quotec != 0 && Last(files).stream == [] then 1 else 0
  {
    var f := Last(files);
    if quotec == 0 {
      var (c, s) := Unescaped(f.stream);
      TotalWithLast(files, f.(stream := s));
      ResumeConserves(c, WithLast(files, f.(stream := s)));
    } else if f.stream != [] {
      TotalWithLast(files, f.(stream := f.stream[1..]));
    } else {
      TotalWithLast(files, f.(errors := f.errors + 1));
      if |files| > 1 {
        PoppedConserves(WithLast(files, f.(errors := f.errors + 1)));
      }
    }
  }

  lemma ReadConserves(s: State, quotec: int)
    requires s.files != []
    ensures Total(Got(s, quotec).1.files) == Total(s.files) + ReadErrors(s, quotec)
  {
    FromFilesConserves(s.files, quotec);
  }

  lemma CountedConserves(files: seq<File>)
    requires files != []
    ensures Total(Counted(files)) == Total(files) + 1
  {
    TotalWithLast(files, Last(files).(errors := Last(files).errors + 1));
  }

  lemma IncludedConserves(s: State, content: seq<Byte>)
    ensures Total(Included(s, content).files) == Total(s.files)
  {
    TotalPushed(s.files, File(content, 0));
  }

  // ----- The verdict

  /** 7-bit text without NULs. */
  predicate IsText(s: seq<int>) {
    forall i :: 0 <= i < |s| ==> 0 < s[i] < 128
  }

  predicate Clean(s: State) {
    && (forall i :: 0 <= i < |s.files| ==> IsText(s.files[i].stream))
    && IsText(s.pushback) && (s.parsebuf.Some? ==> IsText(s.parsebuf.value))
  }

  predicate CleanFiles(files: seq<File>) {
    forall i :: 0 <= i < |files| ==> IsText(files[i].stream)
  }

  lemma {:induction false} UnescapedText(s: seq<Byte>)
    requires IsText(s)
    ensures IsText(Unescaped(s).1) && (Unescaped(s).0 == EOF || 0 < Unescaped(s).0 < 128)
    decreases |s|
  {
    if |s| > 1 && s[0] == BACKSLASH && s[1] == NEWLINE {
      assert s[1..][1..] == s[2..];
      UnescapedText(s[2..]);
    }
  }

  /** At the end of the input only the top file is open. */
  lemma {:induction false} ResumeEnds(c: int, files: seq<File>)
    requires files != [] && CleanFiles(files) && (c == EOF || 0 < c < 128)
    ensures var r := Resume(c, files);
            CleanFiles(r.1) && (0 < r.0 < 128 || (r.0 == EOF && |r.1| == 1))
    decreases |files|
  {
    if c == EOF && |files| > 1 {
      var below := Popped(files);
      assert Last(below).stream == files[|files| - 2].stream;
      assert forall i :: 0 <= i < |below| - 1 ==> below[i] == files[i];
      var (c', s) := Getc(Last(below).stream);
      assert s != Last(below).stream ==> c' == Last(below).stream[0];
      ResumeEnds(c', WithLast(below, Last(below).(stream := s)));
    }
  }

  lemma FromFilesEnds(files: seq<File>, quotec: int)
    requires files != [] && CleanFiles(files) && 0 <= quotec < 128
    ensures var r := FromFiles(files, quotec);
            CleanFiles(r.1) && (0 < r.0 < 128 || (r.0 == EOF && |r.1| == 1))
  {
    var f := Last(files);
    if quotec == 0 {
      UnescapedText(f.stream);
      var (c, s) := Unescaped(f.stream);
      ResumeEnds(c, WithLast(files, f.(stream := s)));
    }
  }

  lemma ReadEnds(s: State, quotec: int)
    requires s.files != [] && Clean(s) && 0 <= quotec < 128
    ensures var r := Got(s, quotec);
            Clean(r.1) && (0 < r.0 < 128 || (r.0 == EOF && |r.1.files| == 1))
  {
    assert CleanFiles(s.files);
    FromFilesEnds(s.files, quotec);
  }

  lemma TotalOfSingle(files: seq<File>)
    requires |files| == 1
    ensures Total(files) == Last(files).errors
  {
    assert files == [Last(files)];
    TotalOfOne(Last(files));
  }

  // ----- The text of included files

  /** What a file says outside quotes: lines joined at a backslash, and no other backslash kept. */
  function Said(s: seq<Byte>): seq<Byte>
    decreases |s|
  {
    if s == [] then []
    else if s[0] != BACKSLASH then [s[0]] + Said(s[1..])
    else if |s| == 1 then []
    else if s[1] == NEWLINE then Said(s[2..])
    else [s[1]] + Said(s[2..])
  }

  /** The rest of a file behind an include: its first character is read as it stands. */
  function Remainder(s: seq<Byte>): seq<Byte> {
    if s == [] then [] else [s[0]] + Said(s[1..])
  }

  function Below(files: seq<File>): seq<Byte> {
    if files == [] then [] else Remainder(Last(files).stream) + Below(files[..|files| - 1])
  }

  /** All that is left to read: the current file, then the ones that include it. */
  function Text(files: seq<File>): seq<Byte>
    requires files != []
  {
    Said(Last(files).stream) + Below(files[..|files| - 1])
  }

  /** Without a backslash a file says what it holds. */
  lemma {:induction false} SaidPlain(s: seq<Byte>)
    requires BACKSLASH !in s
    ensures Said(s) == s && Remainder(s) == s
    decreases |s|
  {
    if s != [] {
      SaidPlain(s[1..]);
    }
  }

  /** One character off the front of the text, or its end. */
  ghost predicate TookOne(text: seq<Byte>, c: int, files: seq<File>)
    requires files != []
  {
    if text == [] then c == EOF && |files| == 1 && Text(files) == []
    else c == text[0] && Text(files) == text[1..]
  }

  lemma {:induction false} UnescapedSays(s: seq<Byte>)
    ensures var (c, rest) := Unescaped(s);
            if c == EOF then Said(s) == [] && rest == [] else 0 <= c < 256 && Said(s) == [c] + Said(rest)
    decreases |s|
  {
    if |s| > 1 && s[0] == BACKSLASH {
      assert s[1..][1..] == s[2..];
      UnescapedSays(s[2..]);
    }
  }

  lemma TookFirst(c: Byte, a: seq<Byte>, b: seq<Byte>)
    ensures ([c] + a + b)[0] == c && ([c] + a + b)[1..] == a + b
  {
  }

  /** From the end of a file the reading goes on below it. */
  lemma {:induction false} ResumeTakes(files: seq<File>)
    requires files != [] && Last(files).stream == []
    ensures TookOne(Below(files[..|files| - 1]), Resume(EOF, files).0, Resume(EOF, files).1)
    decreases |files|
  {
    if |files| > 1 {
      var below, rest := Popped(files), files[..|files| - 1];
      var f := Last(below);
      assert below[..|below| - 1] == rest[..|rest| - 1] && f.stream == Last(rest).stream;
      var under := Below(rest[..|rest| - 1]);
      if f.stream == [] {
        assert WithLast(below, f.(stream := [])) == below;
        assert Below(rest) == under;
        ResumeTakes(below);
      } else {
        TookFirst(f.stream[0], Said(f.stream[1..]), under);
      }
    }
  }

  lemma FromFilesTakes(files: seq<File>)
    requires files != []
    ensures TookOne(Text(files), FromFiles(files, 0).0, FromFiles(files, 0).1)
  {
    var f, under := Last(files), Below(files[..|files| - 1]);
    UnescapedSays(f.stream);
    var (c, rest) := Unescaped(f.stream);
    if c == EOF {
      assert Text(files) == under;
      ResumeTakes(WithLast(files, f.(stream := rest)));
    } else {
      TookFirst(c, Said(rest), under);
    }
  }

  /** Characters are read in the order of the text, through the ends of included files. */
  lemma ReadsInOrder(s: State)
    requires s.files != [] && FromFile(s)
    ensures TookOne(Text(s.files), Got(s, 0).0, Got(s, 0).1.files)
  {
    FromFilesTakes(s.files);
  }

  // ----- The code

  class ConfigInput {
    var files: seq<File>
    var pushback: seq<int>
    var parsebuf: Option<seq<int>>
    var parseindex: int

    function Now(): State
      reads this
    {
      State(files, pushback, parsebuf, parseindex)
    }

    constructor ()
      ensures Now() == State([], [], None, 0)
    {
      files, pushback, parsebuf, parseindex := [], [], None, 0;
    }

    /** `content` is what the file holds, None if it cannot be opened or is not kept secret. */
    method Pushfile(content: Option<seq<Byte>>) returns (ok: bool)
      modifies this`files
      ensures ok == content.Some?
      ensures files == if ok then old(files) + [File(content.value, 0)] else old(files)
    {
      if content.None? {
        return false;
      }
      files := files + [File(content.value, 0)];
      return true;
    }

    method Popfile() returns (eof: bool)
      requires files != []
      modifies this`files
      ensures eof == (files == [])
      ensures files == if |old(files)| > 1 then Popped(old(files)) else []
    {
      var file := files[|files| - 1];
      files := files[..|files| - 1];
      if files != [] {
        var prev := files[|files| - 1];
        files := files[|files| - 1 := prev.(errors := prev.errors + file.errors)];
        assert files == Popped(old(files));
      }
      return files == [];
    }

    method YyError()
      requires files != []
      modifies this`files
      ensures Now() == Reported(old(Now()))
    {
      var file := files[|files| - 1];
      files := files[|files| - 1 := file.(errors := file.errors + 1)];
      assert files == Counted(old(files));
    }

    /** getc(file->stream). */
    method GetFromFile() returns (c: int)
      requires files != []
      modifies this`files
      ensures var f := Last(old(files));
              c == Getc(f.stream).0 && files == WithLast(old(files), f.(stream := Getc(f.stream).1))
    {
      var file := files[|files| - 1];
      if file.stream == [] {
        assert files == WithLast(files, file);
        return EOF;
      }
      files := files[|files| - 1 := file.(stream := file.stream[1..])];
      assert files == WithLast(old(files), Last(files));
      return file.stream[0];
    }

    method GetQuoted(quotec: int) returns (c: int)
      requires files != [] && quotec != 0
      modifies this`files
      ensures files != [] && (c, files) == FromFiles(old(files), quotec)
    {
      c := GetFromFile();
      if c == EOF {
        YyError();
        assert files == WithLast(old(files), Last(files));
        if |files| == 1 {
          return EOF;
        }
        var end := Popfile();
        return quotec;
      }
    }

    method GetUnescaped() returns (c: int)
      requires files != []
      modifies this`files
      ensures var f := Last(old(files));
              c == Unescaped(f.stream).0 && files == WithLast(old(files), f.(stream := Unescaped(f.stream).1))
    {
      ghost var f := Last(files);
      c := GetFromFile();
      while c == BACKSLASH
        invariant files != [] && files == WithLast(old(files), f.(stream := Last(files).stream))
        invariant Unescaped(f.stream) ==
                  if c == BACKSLASH then AfterBackslash(Last(files).stream) else (c, Last(files).stream)
        decreases |Last(files).stream|
      {
        var next := GetFromFile();
        if next != NEWLINE {
          c := next;
          break;
        }
        c := GetFromFile();
      }
    }

    /** The loop of lgetc that leaves files at their end. */
    method PassEnds(c0: int) returns (c: int)
      requires files != []
      modifies this`files
      ensures files != [] && (c, files) == Resume(c0, old(files))
    {
      c := c0;
      while c == EOF
        invariant files != [] && Resume(c, files) == Resume(c0, old(files))
        decreases |files|
      {
        if |files| == 1 {
          return;
        }
        var end := Popfile();
        c := GetFromFile();
      }
    }

    method Lgetc(quotec: int) returns (c: int)
      requires files != []
      modifies this
      ensures files != [] && (c, Now()) == Got(old(Now()), quotec)
    {
      if parsebuf.Some? {
        if parseindex >= 0 {
          if parseindex < |parsebuf.value| {
            c := parsebuf.value[parseindex];
            parseindex := parseindex + 1;
            return;
          }
          parseindex := parseindex + 1;
          parsebuf := None;
        } else {
          parseindex := parseindex + 1;
        }
      }
      if pushback != [] {
        c := pushback[|pushback| - 1];
        pushback := pushback[..|pushback| - 1];
        return;
      }
      if quotec != 0 {
        c := GetQuoted(quotec);
      } else {
        c := GetUnescaped();
        c := PassEnds(c);
      }
    }

    method Lungetc(c: int)
      modifies this`pushback, this`parseindex
      ensures Now() == Ungot(old(Now()), c)
      ensures files != [] && CanGoBack(old(Now()), c) ==> forall quotec :: Got(Now(), quotec) == (c, old(Now()))
    {
      ghost var s := Now();
      forall quotec | files != [] && CanGoBack(s, c) ensures Got(Ungot(s, c), quotec) == (c, s) {
        ReadBack(s, c, quotec);
      }
      if c == EOF {
        return;
      }
      if parsebuf.Some? {
        parseindex := parseindex - 1;
        if parseindex >= 0 {
          return;
        }
      }
      if |pushback| < MAXPUSHBACK - 1 {
        pushback := pushback + [AsChar(c)];
      }
    }

    /** The rule for an include: on failure the error is counted where the include stands. */
    method IncludeFile(content: Option<seq<Byte>>) returns (ok: bool)
      requires files != []
      modifies this
      ensures ok == content.Some?
      ensures Now() == if ok then Included(old(Now()), content.value) else Reported(old(Now()))
    {
      ok := Pushfile(content);
      if !ok {
        YyError();
      } else {
        Lungetc(NEWLINE);
      }
    }
  }
}
