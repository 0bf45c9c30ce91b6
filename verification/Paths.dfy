/** Slash-separated paths and the logic path of a template file (pkg/render/tree.go). */
module Paths {
  import opened Common

  predicate SlashFree(s: string) {
    forall i | 0 <= i < |s| :: s[i] != '/'
  }

  ghost predicate Segments(names: seq<string>) {
    |names| > 0 && forall n | n in names :: SlashFree(n)
  }

  /** strings.Split with a slash. */
  function Split(s: string): (names: seq<string>)
    ensures Segments(names)
  {
    if s == "" then
      [""]
    else
      var rest := Split(s[1..]);
      if s[0] == '/' then
        [""] + rest
      else
        assert forall n | n in rest[1..] :: n in rest;
        assert rest[0] in rest && SlashFree([s[0]] + rest[0]);
        [[s[0]] + rest[0]] + rest[1..]
  }

  /** strings.Join with a slash. */
  function Join(names: seq<string>): string {
    if |names| == 0 then ""
    else if |names| == 1 then names[0]
    else names[0] + "/" + Join(names[1..])
  }

  lemma {:induction false} JoinUndoesSplit(s: string)
    ensures Join(Split(s)) == s
  {
    if s != "" {
      JoinUndoesSplit(s[1..]);
      var rest := Split(s[1..]);
      if s[0] == '/' {
        assert ([""] + rest)[1..] == rest;
      } else {
        assert ([[s[0]] + rest[0]] + rest[1..])[1..] == rest[1..];
      }
    }
  }

  lemma {:induction false} SplitWithHead(head: string, s: string)
    requires SlashFree(head)
    ensures Split(head + "/" + s) == [head] + Split(s)
    decreases head
  {
    var whole := head + "/" + s;
    if head == "" {
      assert whole[1..] == s;
    } else {
      assert whole[1..] == head[1..] + "/" + s;
      SplitWithHead(head[1..], s);
      assert ([head[1..]] + Split(s))[1..] == Split(s);
      assert [head[0]] + head[1..] == head;
    }
  }

  lemma {:induction false} SplitOne(name: string)
    requires SlashFree(name)
    ensures Split(name) == [name]
  {
    if name != "" {
      SplitOne(name[1..]);
      assert [name[0]] + name[1..] == name;
    }
  }

  /** Names without slashes come back, so that different paths are different strings. */
  lemma {:induction false} SplitUndoesJoin(names: seq<string>)
    requires Segments(names)
    ensures Split(Join(names)) == names
  {
    if |names| == 1 {
      SplitOne(names[0]);
    } else {
      SplitUndoesJoin(names[1..]);
      SplitWithHead(names[0], Join(names[1..]));
    }
  }

  // ---------- Template files ----------

  const TEMPLATES := "/templates/"

  predicate At(s: string, part: string, i: nat) {
    i + |part| <= |s| && s[i..i + |part|] == part
  }

  /** strings.LastIndex among the positions below n. */
  function LastIndex(s: string, part: string, n: nat): (r: Option<nat>)
    ensures r.Some? ==> r.value < n && At(s, part, r.value)
    ensures forall i: nat | i < n && (r.Some? ==> i > r.value) :: !At(s, part, i)
  {
    if n == 0 then None else if At(s, part, n - 1) then Some(n - 1) else LastIndex(s, part, n - 1)
  }

  /** The elements at even positions. */
  function Evens(names: seq<string>): seq<string> {
    if |names| == 0 then [] else [names[0]] + if |names| == 1 then [] else Evens(names[2..])
  }

  function LogicPath(file: string): (r: Option<seq<string>>)
    ensures r.Some? ==> Segments(r.value)
  {
    var at := LastIndex(file, TEMPLATES, |file|);
    if at.None? || at.value == 0 then
      None
    else
      var names := Split(file[..at.value]);
      if |names| % 2 != 1 then None else EvensFacts(names); Some(Evens(names))
  }

  lemma {:induction false} EvensFacts(names: seq<string>)
    ensures |Evens(names)| == (|names| + 1) / 2
    ensures forall i | 0 <= i < |Evens(names)| :: Evens(names)[i] == names[2 * i]
  {
    if |names| >= 2 {
      var rest := Evens(names[2..]);
      EvensFacts(names[2..]);
      assert Evens(names) == [names[0]] + rest;
      forall i | 0 <= i < |Evens(names)| ensures Evens(names)[i] == names[2 * i] {
        if i > 0 {
          assert Evens(names)[i] == rest[i - 1] == names[2..][2 * (i - 1)];
        }
      }
    }
  }

  method LogicPathForFile(file: string) returns (r: Option<seq<string>>)
    ensures r == LogicPath(file)
  {
    var at := LastIndex(file, TEMPLATES, |file|);
    if at.None? || at.value <= 0 {
      return None;
    }
    var names := Split(file[..at.value]);
    if |names| % 2 != 1 {
      return None;
    }
    EvensFacts(names);
    var length := 1 + |names| / 2;
    var elements := new string[length];
    for i := 0 to length
      invariant elements[..i] == Evens(names)[..i]
    {
      elements[i] := names[i * 2];
    }
    assert elements[..] == elements[..length] && Evens(names)[..length] == Evens(names);
    r := Some(elements[..]);
  }

  /** Where helm keeps the charts named so: a, a/charts/b, a/charts/b/charts/c. */
  function ChartSegments(charts: seq<string>): seq<string> {
    if |charts| <= 1 then charts else [charts[0], "charts"] + ChartSegments(charts[1..])
  }

  lemma {:induction false} EvensOfChart(charts: seq<string>)
    requires Segments(charts)
    ensures Evens(ChartSegments(charts)) == charts && |ChartSegments(charts)| == 2 * |charts| - 1
    ensures Segments(ChartSegments(charts)) && ChartSegments(charts)[0] == charts[0]
  {
    if |charts| > 1 {
      EvensOfChart(charts[1..]);
      assert ChartSegments(charts)[2..] == ChartSegments(charts[1..]);
    } else {
      assert Evens(charts) == [charts[0]];
    }
  }

  lemma LastIndexAfter(base: string, part: string, file: string)
    requires part != "" && forall j: nat :: !At(part[1..] + file, part, j)
    ensures var s := base + part + file; LastIndex(s, part, |s|) == Some(|base|)
  {
    var s := base + part + file;
    assert At(s, part, |base|) by {
      assert s[|base|..|base| + |part|] == part;
    }
    var head, tail := base + part[..1], part[1..] + file;
    assert s == head + tail;
    forall j: nat | |base| < j < |s| ensures !At(s, part, j) {
      var k := j - |head|;
      assert j + |part| <= |s| ==> s[j..j + |part|] == tail[k..k + |part|];
      assert !At(tail, part, k);
    }
  }

  lemma JoinHead(names: seq<string>)
    requires |names| > 0
    ensures names[0] != "" ==> Join(names) != ""
  {
  }

  /** A template file of a chart, or of a dependency at any depth, leads to the names of the charts. */
  lemma {:induction false} LogicPathOfChartFile(charts: seq<string>, file: string)
    requires Segments(charts) && charts[0] != ""
    requires forall j: nat :: !At(TEMPLATES[1..] + file, TEMPLATES, j)
    ensures LogicPath(Join(ChartSegments(charts)) + TEMPLATES + file) == Some(charts)
  {
    var base := Join(ChartSegments(charts));
    assert base != "" && |Split(base)| % 2 == 1 && Evens(Split(base)) == charts by {
      EvensOfChart(charts);
      SplitUndoesJoin(ChartSegments(charts));
      JoinHead(ChartSegments(charts));
    }
    LogicPathBefore(base, TEMPLATES, file);
  }

  lemma LogicPathBefore(base: string, part: string, file: string)
    requires base != "" && part == TEMPLATES && forall j: nat :: !At(part[1..] + file, part, j)
    requires |Split(base)| % 2 == 1
    ensures LogicPath(base + part + file) == Some(Evens(Split(base)))
  {
    LastIndexAfter(base, part, file);
    assert (base + part + file)[..|base|] == base;
  }

  /** The text before the last templates directory: nothing after it begins another one. */
  ghost predicate LastTemplates(file: string, base: string) {
    && |base| + |TEMPLATES| <= |file| && file[..|base|] == base && At(file, TEMPLATES, |base|)
    && forall j: nat | |base| < j < |file| :: !At(file, TEMPLATES, j)
  }

  /**
   Which files have a logic path, and which: those with something before their last templates
   directory, of an odd number of segments; the path is then every other segment.
   */
  lemma LogicPathIff(file: string, path: seq<string>)
    ensures LogicPath(file) == Some(path) <==>
              exists base :: LastTemplates(file, base) && base != "" && |Split(base)| == 2 * |path| - 1
                          && forall i | 0 <= i < |path| :: path[i] == Split(base)[2 * i]
  {
    var at := LastIndex(file, TEMPLATES, |file|);
    if at.Some? {
      var base := file[..at.value];
      assert LastTemplates(file, base);
      EvensFacts(Split(base));
      forall b | LastTemplates(file, b) ensures b == base {
        assert !(|b| < |base|) && !(|base| < |b|);
      }
      if base != "" && |Split(base)| == 2 * |path| - 1
        && forall i | 0 <= i < |path| :: path[i] == Split(base)[2 * i] {
        assert path == Evens(Split(base));
      }
      if LogicPath(file) == Some(path) {
        assert path == Evens(Split(base));
      }
    } else {
      forall b ensures !LastTemplates(file, b) {
        assert |b| < |file| ==> !At(file, TEMPLATES, |b|);
      }
    }
  }
}
