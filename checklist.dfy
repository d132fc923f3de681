/**
 * The local side: a markdown file read as its lines (each with its own "\n"), the checklist
 * lines in it, `read_local_tasks` (the parse into an ordered title -> completed map) and
 * `update_local_tasks` (the write-back of a converged map onto the original lines).
 */
module Checklist {
  import opened OrderedDict

  // ---------------------------------------------------------------- Python's str.strip()

  /** The characters Python's `str.isspace` accepts, which `str.strip()` removes. */
  predicate IsSpace(c: char)
  {
    || c == ' '
    || '\t' <= c <= '\r'                 // \t \n \x0b \x0c \r
    || '\U{1c}' <= c <= '\U{1f}'
    || c == '\U{85}' || c == '\U{a0}' || c == '\U{1680}'
    || '\U{2000}' <= c <= '\U{200a}'
    || c == '\U{2028}' || c == '\U{2029}' || c == '\U{202f}' || c == '\U{205f}' || c == '\U{3000}'
  }

  /** `s.lstrip()` */
  function LStrip(s: string): string
  {
    if |s| > 0 && IsSpace(s[0]) then LStrip(s[1..]) else s
  }

  /** `s.rstrip()` */
  function RStrip(s: string): string
  {
    if |s| > 0 && IsSpace(s[|s| - 1]) then RStrip(s[..|s| - 1]) else s
  }

  /** `s.strip()`: whitespace removed at both ends. */
  function Strip(s: string): string
  {
    RStrip(LStrip(s))
  }

  /** `lstrip` drops a run of leading whitespace and keeps the rest. */
  lemma {:induction false} LStripShape(s: string)
    ensures |LStrip(s)| <= |s| && LStrip(s) == s[|s| - |LStrip(s)|..]
    ensures forall i :: 0 <= i < |s| - |LStrip(s)| ==> IsSpace(s[i])
    ensures LStrip(s) == [] || !IsSpace(LStrip(s)[0])
  {
    if |s| > 0 && IsSpace(s[0]) {
      LStripShape(s[1..]);
    }
  }

  /** `rstrip` drops a run of trailing whitespace and keeps the rest. */
  lemma {:induction false} RStripShape(s: string)
    ensures |RStrip(s)| <= |s| && RStrip(s) == s[..|RStrip(s)|]
    ensures forall i :: |RStrip(s)| <= i < |s| ==> IsSpace(s[i])
    ensures RStrip(s) == [] || !IsSpace(RStrip(s)[|RStrip(s)| - 1])
  {
    if |s| > 0 && IsSpace(s[|s| - 1]) {
      RStripShape(s[..|s| - 1]);
    }
  }

  /** A string that `strip()` leaves as it is. */
  predicate Stripped(t: string)
  {
    t == [] || (!IsSpace(t[0]) && !IsSpace(t[|t| - 1]))
  }

  /**
   * A character that ends a line when a file is read in text mode: universal newlines turn
   * "\r", "\n" and "\r\n" alike into one "\n".
   */
  predicate EndsLine(c: char)
  {
    c == '\n' || c == '\r'
  }

  /** A title that can be written as a checklist line and read back unchanged. */
  predicate CleanTitle(t: string)
  {
    Stripped(t) && '\n' !in t && '\r' !in t
  }

  /** Whitespace only. */
  predicate AllSpace(s: string)
  {
    forall i :: 0 <= i < |s| ==> IsSpace(s[i])
  }

  /**
   * `strip()` removes only edge whitespace: the string is a whitespace prefix, the stripped
   * string and a whitespace suffix. Nothing at either end of the result is whitespace, and
   * stripping again changes nothing.
   */
  lemma StripStripped(s: string)
    ensures exists a, b :: 0 <= a <= b <= |s| && s[a..b] == Strip(s) && AllSpace(s[..a]) && AllSpace(s[b..])
    ensures Stripped(Strip(s)) && Strip(Strip(s)) == Strip(s)
  {
    var l := LStrip(s);
    LStripShape(s);
    RStripShape(l);
    var a := |s| - |l|;
    var b := a + |Strip(s)|;
    assert s[a..b] == Strip(s) by {
      assert l == s[a..];
    }
    assert AllSpace(s[..a]) by {
      forall i | 0 <= i < a
        ensures IsSpace(s[..a][i])
      {
        assert s[..a][i] == s[i];
      }
    }
    assert AllSpace(s[b..]) by {
      forall i | 0 <= i < |s| - b
        ensures IsSpace(s[b..][i])
      {
        assert s[b..][i] == l[|Strip(s)| + i];
      }
    }
    StrippedFixed(Strip(s));
  }

  lemma StrippedFixed(t: string)
    requires Stripped(t)
    ensures Strip(t) == t
  {
  }

  /** The "\n" that ends a line is stripped off its title. */
  lemma StripNewline(t: string)
    requires Stripped(t)
    ensures Strip(t + "\n") == t
  {
    var s := t + "\n";
    assert s[..|s| - 1] == t;
    assert IsSpace(s[|s| - 1]);
    assert RStrip(s) == RStrip(t) == t;
    if t == [] {
      assert s[1..] == [];
      assert LStrip(s) == LStrip(s[1..]) == [];
    } else {
      assert s[0] == t[0];
      assert LStrip(s) == s;
    }
  }

  /** Stripping a string whose only line end may be its last character leaves no line end. */
  lemma StripNoNewline(s: string)
    requires forall i :: 0 <= i < |s| - 1 ==> !EndsLine(s[i])
    ensures '\n' !in Strip(s) && '\r' !in Strip(s)
  {
    var l := LStrip(s);
    var r := RStrip(l);
    LStripShape(s);
    RStripShape(l);
    var a := |s| - |l|;
    assert r == s[a..a + |r|] by {
      assert l == s[a..];
    }
    forall k | 0 <= k < |r|
      ensures !EndsLine(r[k])
    {
      assert r[k] == s[a + k];
      if a + k == |s| - 1 {
        assert k == |r| - 1;
        assert !IsSpace(r[k]);
      }
    }
  }

  // ---------------------------------------------------------------- lines

  /**
   * A line as `readlines()` returns it in text mode from a file whose last line is terminated
   * too: one "\n" at the end and no other line end.
   */
  predicate WellFormedLine(line: string)
  {
    |line| > 0 && line[|line| - 1] == '\n' && forall i :: 0 <= i < |line| - 1 ==> !EndsLine(line[i])
  }

  predicate WellFormedFile(lines: seq<string>)
  {
    forall i :: 0 <= i < |lines| ==> WellFormedLine(lines[i])
  }

  /** `line.startswith("- [x] ") or line.startswith("- [ ] ")`; an upper-case X is not a mark. */
  predicate IsTaskLine(line: string)
  {
    |line| >= 6 && (line[..6] == "- [x] " || line[..6] == "- [ ] ")
  }

  /** `line[6:].strip()` */
  function TitleOf(line: string): string
    requires IsTaskLine(line)
  {
    Strip(line[6..])
  }

  /** `line[3] == "x"` */
  function DoneOf(line: string): bool
    requires IsTaskLine(line)
  {
    line[3] == 'x'
  }

  /** The checklist line written for a title: f"- [{'x' if completed else ' '}] {title}\n". */
  function Render(title: string, done: bool): string
  {
    "- [" + (if done then "x" else " ") + "] " + title + "\n"
  }

  /** A rendered line reads back as the title and mark it was written from. */
  lemma RenderReads(title: string, done: bool)
    requires CleanTitle(title)
    ensures IsTaskLine(Render(title, done))
    ensures TitleOf(Render(title, done)) == title && DoneOf(Render(title, done)) == done
    ensures WellFormedLine(Render(title, done))
  {
    RenderSplit(title, done);
    StripNewline(title);
    RenderWellFormed(title, done);
  }

  lemma RenderSplit(title: string, done: bool)
    ensures IsTaskLine(Render(title, done)) && DoneOf(Render(title, done)) == done
    ensures Render(title, done)[6..] == title + "\n"
  {
    var head := "- [" + (if done then "x" else " ") + "] ";
    var line := Render(title, done);
    assert line == head + (title + "\n");
    assert line[..6] == head;
  }

  lemma RenderWellFormed(title: string, done: bool)
    requires '\n' !in title && '\r' !in title
    ensures WellFormedLine(Render(title, done))
  {
    var head := "- [" + (if done then "x" else " ") + "] ";
    var line := Render(title, done);
    assert line == head + title + "\n";
    forall i | 0 <= i < |line| - 1
      ensures !EndsLine(line[i])
    {
      if i >= 6 {
        assert line[i] == title[i - 6];
      }
    }
  }

  /** The title of a well-formed checklist line is clean. */
  lemma TitleOfClean(line: string)
    requires IsTaskLine(line) && WellFormedLine(line)
    ensures CleanTitle(TitleOf(line))
  {
    var s := line[6..];
    assert forall i :: 0 <= i < |s| - 1 ==> s[i] == line[6 + i];
    StripNoNewline(s);
    StripStripped(s);
  }

  /** The titles of a line: one for a checklist line, none otherwise. */
  function LineTitle(line: string): set<string>
  {
    if IsTaskLine(line) then {TitleOf(line)} else {}
  }

  /** The titles of all checklist lines. */
  function TaskTitles(lines: seq<string>): set<string>
  {
    set i | 0 <= i < |lines| && IsTaskLine(lines[i]) :: TitleOf(lines[i])
  }

  lemma TaskTitlesSnoc(lines: seq<string>)
    requires lines != []
    ensures TaskTitles(lines) == TaskTitles(lines[..|lines| - 1]) + LineTitle(lines[|lines| - 1])
  {
    var p := lines[..|lines| - 1];
    forall t | t in TaskTitles(lines)
      ensures t in TaskTitles(p) + LineTitle(lines[|lines| - 1])
    {
      var i :| 0 <= i < |lines| && IsTaskLine(lines[i]) && TitleOf(lines[i]) == t;
      if i < |p| {
        assert p[i] == lines[i];
      }
    }
    forall t | t in TaskTitles(p)
      ensures t in TaskTitles(lines)
    {
      var i :| 0 <= i < |p| && IsTaskLine(p[i]) && TitleOf(p[i]) == t;
      assert lines[i] == p[i];
    }
  }

  /** No two checklist lines carry the same title. */
  ghost predicate DistinctTitles(lines: seq<string>)
  {
    forall i, j :: 0 <= i < j < |lines| && IsTaskLine(lines[i]) && IsTaskLine(lines[j]) ==>
      TitleOf(lines[i]) != TitleOf(lines[j])
  }

  /** Every checklist line is written exactly as `Render` writes its title and mark. */
  ghost predicate Canonical(lines: seq<string>)
  {
    forall i :: 0 <= i < |lines| && IsTaskLine(lines[i]) ==>
      lines[i] == Render(TitleOf(lines[i]), DoneOf(lines[i]))
  }

  // ---------------------------------------------------------------- read_local_tasks

  /** One iteration of the parse loop: `tasks[title] = line[3] == "x"` for checklist lines. */
  function ParseLine(d: Dict, line: string): (r: Dict)
    requires Valid(d)
    ensures Valid(r)
  {
    if IsTaskLine(line) then Put(d, TitleOf(line), DoneOf(line)) else d
  }

  /** The map after the parse loop has gone over `lines`, starting from `d`. */
  function ParseOnto(d: Dict, lines: seq<string>): (r: Dict)
    requires Valid(d)
    ensures Valid(r)
  {
    if lines == [] then d else ParseLine(ParseOnto(d, lines[..|lines| - 1]), lines[|lines| - 1])
  }

  /** What `read_local_tasks` returns for a file with these lines. */
  function Parse(lines: seq<string>): (r: Dict)
    ensures Valid(r)
  {
    ParseOnto(Empty(), lines)
  }

  /** `read_local_tasks(markdown_file)` over the file's lines. */
  method ReadLocalTasks(lines: seq<string>) returns (tasks: Dict)
    ensures tasks == Parse(lines)
  {
    tasks := Empty();
    for i := 0 to |lines|
      invariant Valid(tasks)
      invariant tasks == Parse(lines[..i])
    {
      var line := lines[i];
      if IsTaskLine(line) {
        tasks := Put(tasks, TitleOf(line), line[3] == 'x');
      }
      assert lines[..i + 1][..i] == lines[..i];
    }
    assert lines[..|lines|] == lines;
  }

  lemma {:induction false} ParseOntoAppend(d: Dict, a: seq<string>, b: seq<string>)
    requires Valid(d)
    ensures ParseOnto(d, a + b) == ParseOnto(ParseOnto(d, a), b)
    decreases |b|
  {
    if b == [] {
      assert a + b == a;
    } else {
      assert (a + b)[..|a + b| - 1] == a + b[..|b| - 1];
      ParseOntoAppend(d, a, b[..|b| - 1]);
    }
  }

  /** Parsing further only ever appends keys. */
  lemma {:induction false} ParseOntoGrows(d: Dict, b: seq<string>)
    requires Valid(d)
    ensures |d.keys| <= |ParseOnto(d, b).keys| && ParseOnto(d, b).keys[..|d.keys|] == d.keys
  {
    if b != [] {
      ParseOntoGrows(d, b[..|b| - 1]);
    }
  }

  /** The parsed titles are exactly the titles of the checklist lines. */
  lemma {:induction false} ParseKeys(lines: seq<string>)
    ensures Parse(lines).vals.Keys == TaskTitles(lines)
  {
    if lines != [] {
      ParseKeys(lines[..|lines| - 1]);
      TaskTitlesSnoc(lines);
    } else {
      assert TaskTitles(lines) == {};
    }
  }

  /** With duplicate titles the last checklist line decides the value. */
  lemma {:induction false} ParseLastWins(lines: seq<string>, i: nat)
    requires i < |lines| && IsTaskLine(lines[i])
    requires forall j :: i < j < |lines| && IsTaskLine(lines[j]) ==> TitleOf(lines[j]) != TitleOf(lines[i])
    ensures TitleOf(lines[i]) in Parse(lines).vals
    ensures Parse(lines).vals[TitleOf(lines[i])] == DoneOf(lines[i])
  {
    var p := lines[..|lines| - 1];
    if i < |lines| - 1 {
      assert p[i] == lines[i];
      forall j | i < j < |p| && IsTaskLine(p[j])
        ensures TitleOf(p[j]) != TitleOf(p[i])
      {
        assert p[j] == lines[j];
      }
      ParseLastWins(p, i);
    }
  }

  /** A title keeps the position of its first checklist line: one first seen earlier is listed earlier. */
  lemma ParseKeyOrder(lines: seq<string>, i: nat, j: nat)
    requires i < j < |lines| && IsTaskLine(lines[i]) && IsTaskLine(lines[j])
    requires TitleOf(lines[j]) !in TaskTitles(lines[..j])
    ensures exists a, b ::
              && 0 <= a < b < |Parse(lines).keys|
              && Parse(lines).keys[a] == TitleOf(lines[i])
              && Parse(lines).keys[b] == TitleOf(lines[j])
  {
    var pj := Parse(lines[..j]);
    assert TitleOf(lines[i]) in pj.keys by {
      ParseKeys(lines[..j]);
      assert lines[..j][i] == lines[i];
    }
    ParseNewTitle(lines, j);
    ParsePrefixKeys(lines, j + 1);
    PrefixOrder(Parse(lines).keys, pj.keys, TitleOf(lines[j]), TitleOf(lines[i]));
  }

  /** A checklist line with a title not seen before appends that title to the order. */
  lemma ParseNewTitle(lines: seq<string>, j: nat)
    requires j < |lines| && IsTaskLine(lines[j]) && TitleOf(lines[j]) !in TaskTitles(lines[..j])
    ensures Parse(lines[..j + 1]).keys == Parse(lines[..j]).keys + [TitleOf(lines[j])]
  {
    assert lines[..j + 1][..j] == lines[..j];
    ParseKeys(lines[..j]);
  }

  /** The order parsed from a prefix of the file is a prefix of the file's order. */
  lemma ParsePrefixKeys(lines: seq<string>, n: nat)
    requires n <= |lines|
    ensures |Parse(lines[..n]).keys| <= |Parse(lines).keys|
    ensures Parse(lines).keys[..|Parse(lines[..n]).keys|] == Parse(lines[..n]).keys
  {
    ParseOntoAppend(Empty(), lines[..n], lines[n..]);
    assert lines[..n] + lines[n..] == lines;
    ParseOntoGrows(Parse(lines[..n]), lines[n..]);
  }

  /** In a sequence that starts with `pre + [k]`, every element of `pre` comes before `k`. */
  lemma PrefixOrder(ks: seq<string>, pre: seq<string>, k: string, t: string)
    requires t in pre && |pre| + 1 <= |ks| && ks[..|pre| + 1] == pre + [k]
    ensures exists a, b :: 0 <= a < b < |ks| && ks[a] == t && ks[b] == k
  {
    var a :| 0 <= a < |pre| && pre[a] == t;
    assert ks[a] == (pre + [k])[a];
    assert ks[|pre|] == (pre + [k])[|pre|];
  }

  /** The titles read from a well-formed file are clean. */
  lemma ParseClean(lines: seq<string>)
    requires WellFormedFile(lines)
    ensures forall k :: k in Parse(lines).vals ==> CleanTitle(k)
  {
    ParseKeys(lines);
    forall k | k in Parse(lines).vals
      ensures CleanTitle(k)
    {
      var i :| 0 <= i < |lines| && IsTaskLine(lines[i]) && TitleOf(lines[i]) == k;
      TitleOfClean(lines[i]);
    }
  }

  // ---------------------------------------------------------------- update_local_tasks

  /** The write loop part-way: the lines written so far, and what is left of the map's copy. */
  datatype Streamed = Streamed(out: seq<string>, rest: Dict)

  /** The first loop of `update_local_tasks`: each checklist line whose title is still in the
      copy is rewritten with its converged mark and the title popped; every other line is kept. */
  function Stream(lines: seq<string>, d: Dict): (s: Streamed)
    requires Valid(d)
    ensures Valid(s.rest)
  {
    if lines == [] then Streamed([], d)
    else
      var s := Stream(lines[..|lines| - 1], d);
      var line := lines[|lines| - 1];
      if IsTaskLine(line) && TitleOf(line) in s.rest.vals then
        Streamed(s.out + [Render(TitleOf(line), s.rest.vals[TitleOf(line)])], Remove(s.rest, TitleOf(line)))
      else
        Streamed(s.out + [line], s.rest)
  }

  /** The lines the second loop appends: one per title, in the order given. */
  function RenderKeys(ks: seq<string>, vals: map<string, bool>): (r: seq<string>)
    requires forall k :: k in ks ==> k in vals
    ensures |r| == |ks|
  {
    if ks == [] then [] else RenderKeys(ks[..|ks| - 1], vals) + [Render(ks[|ks| - 1], vals[ks[|ks| - 1]])]
  }

  /** The appended line for the `i`-th title renders that title. */
  lemma {:induction false} RenderKeysAt(ks: seq<string>, vals: map<string, bool>, i: nat)
    requires forall k :: k in ks ==> k in vals
    requires i < |ks|
    ensures RenderKeys(ks, vals)[i] == Render(ks[i], vals[ks[i]])
  {
    if i < |ks| - 1 {
      RenderKeysAt(ks[..|ks| - 1], vals, i);
    }
  }

  /** The file `update_local_tasks(markdown_file, task_dict)` leaves behind. */
  function WriteBack(lines: seq<string>, d: Dict): seq<string>
    requires Valid(d)
  {
    var s := Stream(lines, d);
    s.out + RenderKeys(s.rest.keys, s.rest.vals)
  }

  /** `update_local_tasks` over the file's lines; the caller's map is copied, not changed. */
  method UpdateLocalTasks(lines: seq<string>, taskDict: Dict) returns (out: seq<string>)
    requires Valid(taskDict)
    ensures out == WriteBack(lines, taskDict)
  {
    var rest := taskDict;
    out := [];
    for i := 0 to |lines|
      invariant Valid(rest)
      invariant Streamed(out, rest) == Stream(lines[..i], taskDict)
    {
      var line := lines[i];
      assert lines[..i + 1][..i] == lines[..i];
      if IsTaskLine(line) && TitleOf(line) in rest.vals {
        var title := TitleOf(line);
        var completed := rest.vals[title];
        rest := Remove(rest, title);
        out := out + [Render(title, completed)];
      } else {
        out := out + [line];
      }
    }
    assert lines[..|lines|] == lines;
    ghost var streamed := out;
    for j := 0 to |rest.keys|
      invariant out == streamed + RenderKeys(rest.keys[..j], rest.vals)
    {
      var title := rest.keys[j];
      assert rest.keys[..j + 1][..j] == rest.keys[..j];
      assert RenderKeys(rest.keys[..j + 1], rest.vals) ==
        RenderKeys(rest.keys[..j], rest.vals) + [Render(title, rest.vals[title])];
      out := out + [Render(title, rest.vals[title])];
    }
    assert rest.keys[..|rest.keys|] == rest.keys;
    assert Streamed(streamed, rest) == Stream(lines, taskDict);
  }

  /** What the first loop writes for line `i`: the converged line for the first checklist line
      carrying a title of the map, the original line otherwise. */
  function Rewritten(lines: seq<string>, d: Dict, i: nat): string
    requires i < |lines|
  {
    var line := lines[i];
    if IsTaskLine(line) && TitleOf(line) in d.vals && TitleOf(line) !in TaskTitles(lines[..i])
    then Render(TitleOf(line), d.vals[TitleOf(line)])
    else line
  }

  /** The first loop leaves exactly the titles the file does not carry, in map order. */
  lemma {:induction false} StreamRest(lines: seq<string>, d: Dict)
    requires Valid(d)
    ensures Stream(lines, d).rest == Without(d, TaskTitles(lines))
  {
    if lines == [] {
      assert TaskTitles(lines) == {};
      MinusNone(d.keys, {});
      assert d.vals - {} == d.vals;
    } else {
      var p := lines[..|lines| - 1];
      var line := lines[|lines| - 1];
      StreamRest(p, d);
      TaskTitlesSnoc(lines);
      var titles := TaskTitles(p);
      var s := Stream(p, d);
      if IsTaskLine(line) {
        var t := TitleOf(line);
        assert TaskTitles(lines) == titles + {t};
        if t in s.rest.vals {
          assert Stream(lines, d).rest == Remove(s.rest, t);
          WithoutWithout(d, titles, {t});
        } else {
          assert Stream(lines, d).rest == s.rest;
          WithoutGone(d, titles, {t});
        }
      } else {
        assert Stream(lines, d).rest == s.rest;
        assert TaskTitles(lines) == titles;
      }
    }
  }

  /** The first loop writes one line for each original line, as `Rewritten` says. */
  lemma {:induction false} StreamOut(lines: seq<string>, d: Dict)
    requires Valid(d)
    ensures |Stream(lines, d).out| == |lines|
    ensures forall i :: 0 <= i < |lines| ==> Stream(lines, d).out[i] == Rewritten(lines, d, i)
  {
    if lines != [] {
      var p := lines[..|lines| - 1];
      var line := lines[|lines| - 1];
      StreamOut(p, d);
      StreamRest(p, d);
      var s := Stream(p, d);
      var out := Stream(lines, d).out;
      assert out[..|p|] == s.out;
      forall i | 0 <= i < |p|
        ensures out[i] == Rewritten(lines, d, i)
      {
        assert lines[..i] == p[..i];
        assert lines[i] == p[i];
        assert out[i] == s.out[i];
      }
      assert lines[..|p|] == p;
      if IsTaskLine(line) {
        assert TitleOf(line) in s.rest.vals <==> TitleOf(line) in d.vals && TitleOf(line) !in TaskTitles(p);
      }
    }
  }

  /** The titles left for the second loop. */
  function Leftover(lines: seq<string>, d: Dict): seq<string>
    requires Valid(d)
  {
    Without(d, TaskTitles(lines)).keys
  }

  /** The written file: the original lines rewritten one for one, then the leftover titles in map order. */
  lemma WriteBackShape(lines: seq<string>, d: Dict)
    requires Valid(d)
    ensures |WriteBack(lines, d)| == |lines| + |Leftover(lines, d)|
    ensures forall i :: 0 <= i < |lines| ==> WriteBack(lines, d)[i] == Rewritten(lines, d, i)
    ensures forall i :: 0 <= i < |Leftover(lines, d)| ==>
      WriteBack(lines, d)[|lines| + i] == Render(Leftover(lines, d)[i], d.vals[Leftover(lines, d)[i]])
  {
    StreamRest(lines, d);
    StreamOut(lines, d);
    var s := Stream(lines, d);
    var tail := RenderKeys(s.rest.keys, s.rest.vals);
    var w := s.out + tail;
    assert WriteBack(lines, d) == w;
    forall i | 0 <= i < |Leftover(lines, d)|
      ensures w[|lines| + i] == Render(Leftover(lines, d)[i], d.vals[Leftover(lines, d)[i]])
    {
      assert w[|lines| + i] == tail[i];
      RenderKeysAt(s.rest.keys, s.rest.vals, i);
    }
  }

  /** A title carried by some line before `j` makes line `j`, carrying it too, a duplicate. */
  lemma EarlierTitle(lines: seq<string>, j: nat)
    requires j < |lines| && IsTaskLine(lines[j]) && DistinctTitles(lines)
    ensures TitleOf(lines[j]) !in TaskTitles(lines[..j])
  {
  }

  /** Parsing the first loop's output: the file's own titles in the file's order, with the map's values. */
  lemma {:induction false} StreamParse(lines: seq<string>, d: Dict)
    requires Valid(d) && DistinctTitles(lines)
    requires TaskTitles(lines) <= d.vals.Keys
    requires forall k :: k in d.vals ==> CleanTitle(k)
    ensures Parse(Stream(lines, d).out).keys == Parse(lines).keys
    ensures Parse(Stream(lines, d).out).vals.Keys == TaskTitles(lines)
    ensures forall k :: k in TaskTitles(lines) ==> Parse(Stream(lines, d).out).vals[k] == d.vals[k]
  {
    if lines == [] {
      assert TaskTitles(lines) == {};
    } else {
      var p := lines[..|lines| - 1];
      var line := lines[|lines| - 1];
      assert DistinctTitles(p) && TaskTitles(p) <= d.vals.Keys by {
        TaskTitlesSnoc(lines);
        forall i, j | 0 <= i < j < |p| && IsTaskLine(p[i]) && IsTaskLine(p[j])
          ensures TitleOf(p[i]) != TitleOf(p[j])
        {
          assert p[i] == lines[i] && p[j] == lines[j];
        }
      }
      StreamParse(p, d);
      if IsTaskLine(line) {
        StreamParseTask(lines, d);
      } else {
        assert TaskTitles(lines) == TaskTitles(p) by {
          TaskTitlesSnoc(lines);
        }
        StreamParseKeep(Stream(p, d).out, line);
      }
    }
  }

  /** The step of `StreamParse` for a checklist line: its title is fresh, so both parses gain it. */
  lemma StreamParseTask(lines: seq<string>, d: Dict)
    requires Valid(d) && lines != [] && DistinctTitles(lines) && IsTaskLine(lines[|lines| - 1])
    requires TaskTitles(lines) <= d.vals.Keys
    requires forall k :: k in d.vals ==> CleanTitle(k)
    requires var p := lines[..|lines| - 1];
      && Parse(Stream(p, d).out).keys == Parse(p).keys
      && Parse(Stream(p, d).out).vals.Keys == TaskTitles(p)
      && forall k :: k in TaskTitles(p) ==> Parse(Stream(p, d).out).vals[k] == d.vals[k]
    ensures Parse(Stream(lines, d).out).keys == Parse(lines).keys
    ensures Parse(Stream(lines, d).out).vals.Keys == TaskTitles(lines)
    ensures forall k :: k in TaskTitles(lines) ==> Parse(Stream(lines, d).out).vals[k] == d.vals[k]
  {
    var p := lines[..|lines| - 1];
    var t := TitleOf(lines[|lines| - 1]);
    var s := Stream(p, d);
    assert TaskTitles(lines) == TaskTitles(p) + {t} && t !in TaskTitles(p) by {
      TaskTitlesSnoc(lines);
      EarlierTitle(lines, |lines| - 1);
    }
    assert t !in Parse(p).vals by {
      ParseKeys(p);
    }
    assert Parse(lines) == Put(Parse(p), t, DoneOf(lines[|lines| - 1]));
    assert Parse(Stream(lines, d).out) == Put(Parse(s.out), t, d.vals[t]) by {
      StreamRest(p, d);
      assert t in s.rest.vals && s.rest.vals[t] == d.vals[t];
      assert Stream(lines, d).out == s.out + [Render(t, d.vals[t])];
      ParseRenderedStep(Empty(), s.out, t, d.vals[t]);
    }
    PutAlike(Parse(p), Parse(s.out), t, DoneOf(lines[|lines| - 1]), TaskTitles(p), d.vals);
  }

  /**
   * Two maps with the same order, one of them agreeing with `dv` on its keys `ts`, stay so
   * once the same new key is put in both, with `dv`'s value on the agreeing side.
   */
  lemma PutAlike(a: Dict, b: Dict, t: string, v: bool, ts: set<string>, dv: map<string, bool>)
    requires Valid(a) && Valid(b) && b.keys == a.keys && b.vals.Keys == ts && t !in a.vals
    requires ts <= dv.Keys && t in dv
    requires forall k :: k in ts ==> b.vals[k] == dv[k]
    ensures Put(b, t, dv[t]).keys == Put(a, t, v).keys
    ensures Put(b, t, dv[t]).vals.Keys == ts + {t}
    ensures forall k :: k in ts + {t} ==> Put(b, t, dv[t]).vals[k] == dv[k]
  {
    assert t !in b.keys;
  }

  lemma StreamParseKeep(out: seq<string>, line: string)
    requires !IsTaskLine(line)
    ensures Parse(out + [line]) == Parse(out)
  {
    var r := out + [line];
    assert r[..|r| - 1] == out;
  }

  /** Parsing rendered lines for fresh, distinct, clean titles appends them with their values. */
  lemma {:induction false} ParseRenderedKeys(p: Dict, ks: seq<string>, vals: map<string, bool>)
    requires Valid(p) && Distinct(ks)
    requires forall k :: k in ks ==> k in vals && k !in p.vals && CleanTitle(k)
    ensures ParseOnto(p, RenderKeys(ks, vals)).keys == p.keys + ks
  {
    if ks == [] {
      assert p.keys + ks == p.keys;
    } else {
      var ks' := ks[..|ks| - 1];
      var k := ks[|ks| - 1];
      assert ks == ks' + [k];
      assert Distinct(ks');
      var r := RenderKeys(ks', vals);
      ParseRenderedKeys(p, ks', vals);
      assert RenderKeys(ks, vals) == r + [Render(k, vals[k])];
      ParseRenderedStep(p, r, k, vals[k]);
      assert k !in ks' && k !in p.keys;
      PutNewKey(ParseOnto(p, r), p.keys, ks', k, vals[k]);
    }
  }

  /** A key in neither part of a two-part order goes after both parts. */
  lemma PutNewKey(q: Dict, a: seq<string>, b: seq<string>, k: string, v: bool)
    requires Valid(q) && q.keys == a + b && k !in a && k !in b
    ensures Put(q, k, v).keys == a + (b + [k])
  {
    assert k !in q.keys;
  }

  lemma {:induction false} ParseRenderedAt(p: Dict, ks: seq<string>, vals: map<string, bool>, x: string)
    requires Valid(p)
    requires forall k :: k in ks ==> k in vals && k !in p.vals && CleanTitle(k)
    ensures x in p.vals ==>
      x in ParseOnto(p, RenderKeys(ks, vals)).vals && ParseOnto(p, RenderKeys(ks, vals)).vals[x] == p.vals[x]
    ensures x in ks ==>
      x in ParseOnto(p, RenderKeys(ks, vals)).vals && ParseOnto(p, RenderKeys(ks, vals)).vals[x] == vals[x]
  {
    if ks != [] {
      var ks' := ks[..|ks| - 1];
      var k := ks[|ks| - 1];
      assert ks == ks' + [k];
      ParseRenderedAt(p, ks', vals, x);
      assert RenderKeys(ks, vals) == RenderKeys(ks', vals) + [Render(k, vals[k])];
      ParseRenderedStep(p, RenderKeys(ks', vals), k, vals[k]);
    }
  }

  lemma ParseRenderedStep(p: Dict, r: seq<string>, k: string, v: bool)
    requires Valid(p) && CleanTitle(k)
    ensures ParseOnto(p, r + [Render(k, v)]) == Put(ParseOnto(p, r), k, v)
  {
    var r' := r + [Render(k, v)];
    assert r'[..|r'| - 1] == r;
    RenderReads(k, v);
  }

  /** Facts about a single line of the written file. */
  lemma WriteBackLine(lines: seq<string>, d: Dict, i: nat)
    requires Valid(d) && WellFormedFile(lines) && DistinctTitles(lines)
    requires TaskTitles(lines) <= d.vals.Keys
    requires forall k :: k in d.vals ==> CleanTitle(k)
    requires i < |WriteBack(lines, d)|
    ensures WellFormedLine(WriteBack(lines, d)[i])
    ensures IsTaskLine(WriteBack(lines, d)[i]) ==>
      WriteBack(lines, d)[i] == Render(TitleOf(WriteBack(lines, d)[i]), DoneOf(WriteBack(lines, d)[i]))
    ensures i < |lines| ==> (IsTaskLine(WriteBack(lines, d)[i]) <==> IsTaskLine(lines[i]))
    ensures i < |lines| && IsTaskLine(lines[i]) ==>
              && TitleOf(WriteBack(lines, d)[i]) == TitleOf(lines[i])
              && TitleOf(lines[i]) in d.vals
              && DoneOf(WriteBack(lines, d)[i]) == d.vals[TitleOf(lines[i])]
    ensures i < |lines| && !IsTaskLine(lines[i]) ==> WriteBack(lines, d)[i] == lines[i]
    ensures |lines| <= i < |lines| + |Leftover(lines, d)| ==>
              && IsTaskLine(WriteBack(lines, d)[i])
              && TitleOf(WriteBack(lines, d)[i]) == Leftover(lines, d)[i - |lines|]
              && Leftover(lines, d)[i - |lines|] in d.vals
              && DoneOf(WriteBack(lines, d)[i]) == d.vals[Leftover(lines, d)[i - |lines|]]
  {
    WriteBackShape(lines, d);
    var w := WriteBack(lines, d);
    if i < |lines| {
      if IsTaskLine(lines[i]) {
        EarlierTitle(lines, i);
        RenderReads(TitleOf(lines[i]), d.vals[TitleOf(lines[i])]);
      }
    } else {
      var k := Leftover(lines, d)[i - |lines|];
      RenderReads(k, d.vals[k]);
    }
  }

  /** Parse/write round trip: reading the written file gives back the map, every title once. */
  lemma RoundTrip(lines: seq<string>, d: Dict)
    requires Valid(d) && WellFormedFile(lines) && DistinctTitles(lines)
    requires TaskTitles(lines) <= d.vals.Keys
    requires forall k :: k in d.vals ==> CleanTitle(k)
    ensures WellFormedFile(WriteBack(lines, d))
    ensures DistinctTitles(WriteBack(lines, d)) && Canonical(WriteBack(lines, d))
    ensures Parse(WriteBack(lines, d)) == Dict(Parse(lines).keys + Leftover(lines, d), d.vals)
  {
    RoundTripParse(lines, d);
    var w := WriteBack(lines, d);
    var ks := Leftover(lines, d);
    WriteBackShape(lines, d);
    forall i | 0 <= i < |w|
      ensures WellFormedLine(w[i])
      ensures IsTaskLine(w[i]) ==> w[i] == Render(TitleOf(w[i]), DoneOf(w[i]))
    {
      WriteBackLine(lines, d, i);
    }
    MinusDistinct(d.keys, TaskTitles(lines));
    forall i, j | 0 <= i < j < |w| && IsTaskLine(w[i]) && IsTaskLine(w[j])
      ensures TitleOf(w[i]) != TitleOf(w[j])
    {
      WriteBackLine(lines, d, i);
      WriteBackLine(lines, d, j);
      if j < |lines| {
      } else if i < |lines| {
        assert ks[j - |lines|] in ks;
      } else {
        assert ks[i - |lines|] != ks[j - |lines|];
      }
    }
  }

  /** The map half of the round trip. */
  lemma RoundTripParse(lines: seq<string>, d: Dict)
    requires Valid(d) && DistinctTitles(lines)
    requires TaskTitles(lines) <= d.vals.Keys
    requires forall k :: k in d.vals ==> CleanTitle(k)
    ensures Parse(WriteBack(lines, d)) == Dict(Parse(lines).keys + Leftover(lines, d), d.vals)
  {
    var s := Stream(lines, d);
    var tail := RenderKeys(s.rest.keys, s.rest.vals);
    assert Parse(WriteBack(lines, d)) == ParseOnto(Parse(s.out), tail) by {
      assert WriteBack(lines, d) == s.out + tail;
      ParseOntoAppend(Empty(), s.out, tail);
    }
    StreamRest(lines, d);
    StreamParse(lines, d);
    ParseTail(Parse(s.out), s.rest, d);
  }

  /** Parsing the appended lines on top of the file's own titles completes the map. */
  lemma ParseTail(p: Dict, r: Dict, d: Dict)
    requires Valid(p) && Valid(r) && Valid(d)
    requires forall k :: k in d.vals <==> k in p.vals || k in r.vals
    requires forall k :: k in r.vals ==> k !in p.vals && r.vals[k] == d.vals[k] && CleanTitle(k)
    requires forall k :: k in p.vals ==> p.vals[k] == d.vals[k]
    ensures ParseOnto(p, RenderKeys(r.keys, r.vals)) == Dict(p.keys + r.keys, d.vals)
  {
    ParseRenderedKeys(p, r.keys, r.vals);
    ParseTailVals(p, r, d);
  }

  lemma ParseTailVals(p: Dict, r: Dict, d: Dict)
    requires Valid(p) && Valid(r) && Valid(d)
    requires forall k :: k in d.vals <==> k in p.vals || k in r.vals
    requires forall k :: k in r.vals ==> k !in p.vals && r.vals[k] == d.vals[k] && CleanTitle(k)
    requires forall k :: k in p.vals ==> p.vals[k] == d.vals[k]
    ensures ParseOnto(p, RenderKeys(r.keys, r.vals)).vals == d.vals
  {
    var q := ParseOnto(p, RenderKeys(r.keys, r.vals));
    ParseRenderedKeys(p, r.keys, r.vals);
    forall x | x in d.vals
      ensures x in q.vals && q.vals[x] == d.vals[x]
    {
      ParseRenderedAt(p, r.keys, r.vals, x);
    }
    SameVals(q, p, r, d);
  }

  /** A map laid out as `p` then `r`, and agreeing with `d` on `d`'s keys, is `d`'s map. */
  lemma SameVals(q: Dict, p: Dict, r: Dict, d: Dict)
    requires Valid(q) && Valid(p) && Valid(r) && q.keys == p.keys + r.keys
    requires forall k :: k in d.vals <==> k in p.vals || k in r.vals
    requires forall x :: x in d.vals ==> x in q.vals && q.vals[x] == d.vals[x]
    ensures q.vals == d.vals
  {
    forall x | x in q.vals
      ensures x in d.vals
    {
      assert x in p.keys + r.keys;
    }
    assert q.vals == d.vals;
  }

  /** A canonical file with distinct titles is left as it is by writing back its own map. */
  lemma WriteBackFixpoint(w: seq<string>, m: Dict)
    requires Canonical(w) && DistinctTitles(w)
    requires Valid(m) && m.vals == Parse(w).vals
    ensures WriteBack(w, m) == w
  {
    StreamRest(w, m);
    StreamOut(w, m);
    ParseKeys(w);
    MinusAll(m.keys, TaskTitles(w));
    var s := Stream(w, m);
    forall i | 0 <= i < |w|
      ensures s.out[i] == w[i]
    {
      if IsTaskLine(w[i]) {
        EarlierTitle(w, i);
        ParseLastWins(w, i);
      }
    }
    assert s.out == w;
  }
}
