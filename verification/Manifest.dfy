/** Manifests: joining rendered resources into one text and splitting it again (pkg/render/util.go). */
module Manifest {

  const DELIMITER := "\n---\n"

  /** What DELIMITER shares with a resource that swallows its first four characters. */
  const TAIL := "\n---"

  /** strings.Join with the delimiter. */
  function MergeResources(resources: seq<string>): string {
    if |resources| == 0 then ""
    else if |resources| == 1 then resources[0]
    else resources[0] + DELIMITER + MergeResources(resources[1..])
  }

  predicate DelimiterAt(s: string, i: nat) {
    i + |DELIMITER| <= |s| && s[i..i + |DELIMITER|] == DELIMITER
  }

  ghost predicate HasDelimiter(s: string) {
    exists i: nat :: DelimiterAt(s, i)
  }

  /** strings.Index from position i on: the leftmost delimiter, or |s| when there is none. */
  function Index(s: string, i: nat): (k: nat)
    requires i <= |s|
    ensures i <= k <= |s|
    ensures k < |s| ==> DelimiterAt(s, k)
    ensures forall j: nat | i <= j < k :: !DelimiterAt(s, j)
    decreases |s| - i
  {
    if i == |s| || DelimiterAt(s, i) then i else Index(s, i + 1)
  }

  /** strings.Split at the leftmost, non-overlapping delimiters: joining the pieces gives the text back. */
  function Split(s: string): (pieces: seq<string>)
    ensures |pieces| > 0 && MergeResources(pieces) == s
    ensures forall p | p in pieces :: !HasDelimiter(p)
  {
    var k := Index(s, 0);
    if k == |s| then
      [s]
    else
      assert !HasDelimiter(s[..k]) by { PrefixWithout(s, k); }
      var rest := Split(s[k + |DELIMITER|..]);
      assert MergeResources([s[..k]] + rest) == s by {
        assert ([s[..k]] + rest)[1..] == rest;
        assert s == s[..k] + s[k..k + |DELIMITER|] + s[k + |DELIMITER|..];
      }
      [s[..k]] + rest
  }

  lemma PrefixWithout(s: string, k: nat)
    requires k <= |s| && forall j: nat | j < k :: !DelimiterAt(s, j)
    ensures !HasDelimiter(s[..k])
  {
    if j: nat :| DelimiterAt(s[..k], j) {
      assert s[..k][j..j + |DELIMITER|] == s[j..j + |DELIMITER|];
      assert DelimiterAt(s, j);
    }
  }

  /** unicode.IsSpace. */
  predicate IsSpace(c: char) {
    || '\t' <= c <= '\r' || c == ' ' || c == '\U{0085}' || c == '\U{00A0}' || c == '\U{1680}'
    || '\U{2000}' <= c <= '\U{200A}'
    || c == '\U{2028}' || c == '\U{2029}' || c == '\U{202F}' || c == '\U{205F}' || c == '\U{3000}'
  }

  function TrimLeft(s: string): string {
    if s != "" && IsSpace(s[0]) then TrimLeft(s[1..]) else s
  }

  function TrimRight(s: string): string {
    if s != "" && IsSpace(s[|s| - 1]) then TrimRight(s[..|s| - 1]) else s
  }

  /** strings.TrimSpace. */
  function TrimSpace(s: string): string {
    TrimRight(TrimLeft(s))
  }

  predicate Trimmed(s: string) {
    s != "" ==> !IsSpace(s[0]) && !IsSpace(s[|s| - 1])
  }

  /** What a piece contributes: its trimmed text, unless that is blank. */
  function Keep(piece: string): seq<string> {
    var r := TrimSpace(piece);
    if r == "" then [] else [r]
  }

  /** The trimmed pieces that are not blank, in order. */
  function Compact(pieces: seq<string>): seq<string> {
    if pieces == [] then [] else Keep(pieces[0]) + Compact(pieces[1..])
  }

  function ManifestResources(manifest: string): seq<string> {
    Compact(Split(manifest))
  }

  /** The loop body of the source: a non-blank piece moves to the end of the kept part. */
  method KeepPiece(result: array<string>, length: nat, i: nat) returns (newLength: nat)
    requires length <= i < result.Length
    modifies result
    ensures length <= newLength <= i + 1
    ensures result[..newLength] == old(result[..length]) + Keep(old(result[i]))
    ensures forall j | i < j < result.Length :: result[j] == old(result[j])
  {
    var r := TrimSpace(result[i]);
    newLength := length;
    if r != "" {
      result[newLength] := r;
      newLength := newLength + 1;
    }
  }

  /** The loop of the source: the kept pieces share the slice with those still to be looked at. */
  method CompactInPlace(result: array<string>) returns (length: nat)
    modifies result
    ensures length <= result.Length && result[..length] == Compact(old(result[..]))
  {
    ghost var pieces := result[..];
    length := 0;
    for i := 0 to result.Length
      invariant 0 <= length <= i
      invariant forall j | i <= j < |pieces| :: result[j] == pieces[j]
      invariant result[..length] == Compact(pieces[..i])
    {
      CompactOneMore(pieces, i);
      length := KeepPiece(result, length, i);
    }
    assert pieces[..|pieces|] == pieces;
  }

  method SplitManifest(manifest: string) returns (resources: seq<string>)
    ensures resources == ManifestResources(manifest)
  {
    var pieces := Split(manifest);
    var result := new string[|pieces|](i requires 0 <= i < |pieces| => pieces[i]);
    assert result[..] == pieces;
    var length := CompactInPlace(result);
    resources := result[..length];
  }

  lemma {:induction false} CompactConcat(a: seq<string>, b: seq<string>)
    ensures Compact(a + b) == Compact(a) + Compact(b)
  {
    if a == [] {
      assert a + b == b;
    } else {
      assert (a + b)[1..] == a[1..] + b;
      CompactConcat(a[1..], b);
    }
  }

  lemma CompactOneMore(pieces: seq<string>, i: nat)
    requires i < |pieces|
    ensures Compact(pieces[..i + 1]) == Compact(pieces[..i]) + Keep(pieces[i])
  {
    assert pieces[..i + 1] == pieces[..i] + [pieces[i]];
    CompactConcat(pieces[..i], [pieces[i]]);
    assert Compact([pieces[i]]) == Keep(pieces[i]) + Compact([]);
  }

  // ---------- Round trips ----------

  /** The lists that survive joining and splitting. */
  ghost predicate Clean(resources: seq<string>) {
    && (forall i | 0 <= i < |resources| ::
          resources[i] != "" && Trimmed(resources[i]) && !HasDelimiter(resources[i]))
    && (forall i | 0 <= i < |resources| - 1 :: !EndsInTail(resources[i]))
  }

  predicate EndsInTail(s: string) {
    |s| >= |TAIL| && s[|s| - |TAIL|..] == TAIL
  }

  lemma TrimLeftFacts(s: string)
    ensures |TrimLeft(s)| <= |s| && TrimLeft(s) == s[|s| - |TrimLeft(s)|..]
    ensures TrimLeft(s) != "" ==> !IsSpace(TrimLeft(s)[0])
  {
  }

  lemma TrimRightFacts(s: string)
    ensures |TrimRight(s)| <= |s| && TrimRight(s) == s[..|TrimRight(s)|]
    ensures TrimRight(s) != "" ==> !IsSpace(TrimRight(s)[|TrimRight(s)| - 1])
    ensures s != "" && !IsSpace(s[0]) ==> TrimRight(s) != ""
  {
  }

  lemma TrimSpaceFacts(s: string)
    ensures Trimmed(TrimSpace(s)) && |TrimSpace(s)| <= |s|
    ensures !HasDelimiter(s) ==> !HasDelimiter(TrimSpace(s))
    ensures Trimmed(s) ==> TrimSpace(s) == s
    ensures s != "" && !IsSpace(s[0]) ==> TrimSpace(s) != ""
  {
    var l := TrimLeft(s);
    TrimLeftFacts(s);
    TrimRightFacts(l);
    var skipped := |s| - |l|;
    assert TrimSpace(s) == s[skipped..skipped + |TrimSpace(s)|];
    PartHasNoDelimiter(s, skipped, skipped + |TrimSpace(s)|);
  }

  lemma PartHasNoDelimiter(s: string, from: nat, to: nat)
    requires from <= to <= |s|
    ensures !HasDelimiter(s) ==> !HasDelimiter(s[from..to])
  {
    if j: nat :| DelimiterAt(s[from..to], j) {
      PartOfPart(s, from, to, j, j + |DELIMITER|);
      assert DelimiterAt(s, from + j);
    }
  }

  lemma PartOfPart(s: string, from: nat, to: nat, i: nat, k: nat)
    requires from <= to <= |s| && i <= k <= to - from
    ensures s[from..to][i..k] == s[from + i..from + k]
  {
    assert forall m | 0 <= m < k - i :: s[from..to][i..k][m] == s[from + i..from + k][m];
  }

  /** Whatever a manifest was, its resources are trimmed, non-blank and free of delimiters. */
  lemma {:induction false} ResourcesAreSound(pieces: seq<string>, i: nat)
    requires i < |Compact(pieces)| && forall p | p in pieces :: !HasDelimiter(p)
    ensures Compact(pieces)[i] != "" && Trimmed(Compact(pieces)[i]) && !HasDelimiter(Compact(pieces)[i])
  {
    TrimSpaceFacts(pieces[0]);
    if TrimSpace(pieces[0]) == "" {
      ResourcesAreSound(pieces[1..], i);
    } else if i > 0 {
      ResourcesAreSound(pieces[1..], i - 1);
    }
  }

  /** Only a resource that ends in the tail moves the first delimiter, and then by four characters. */
  lemma FirstDelimiter(p: string, rest: string)
    requires !HasDelimiter(p)
    ensures Index(p + DELIMITER + rest, 0) == if EndsInTail(p) then |p| - |TAIL| else |p|
  {
    var s := p + DELIMITER + rest;
    forall j: nat | j < |p| ensures DelimiterAt(s, j) <==> EndsInTail(p) && j == |p| - |TAIL| {
      if j + |DELIMITER| <= |p| {
        assert s[j..j + |DELIMITER|] == p[j..j + |DELIMITER|];
        assert !DelimiterAt(p, j);
      } else {
        var d := |p| - j;
        assert s[j..j + |DELIMITER|] == p[j..] + DELIMITER[..|DELIMITER| - d];
        if DelimiterAt(s, j) {
          assert DELIMITER[d..] == DELIMITER[..|DELIMITER| - d];
          assert DELIMITER[d] == DELIMITER[0];
          assert d == 4 && p[j..] == DELIMITER[..4];
        }
        if EndsInTail(p) && j == |p| - |TAIL| {
          assert p[j..] == TAIL && TAIL + DELIMITER[..1] == DELIMITER;
        }
      }
    }
    assert s[|p|..|p| + |DELIMITER|] == DELIMITER;
    var k := Index(s, 0);
    assert DelimiterAt(s, |p|) && k <= |p|;
    if EndsInTail(p) {
      assert DelimiterAt(s, |p| - |TAIL|) && k <= |p| - |TAIL|;
    }
  }

  lemma SplitFirst(p: string, rest: string)
    requires !HasDelimiter(p) && !EndsInTail(p)
    ensures Split(p + DELIMITER + rest) == [p] + Split(rest)
  {
    var s := p + DELIMITER + rest;
    FirstDelimiter(p, rest);
    assert s[..|p|] == p && s[|p| + |DELIMITER|..] == rest;
  }

  /** A resource that ends in the tail comes back shortened. */
  lemma TailIsLost(p: string, rest: string)
    requires !HasDelimiter(p) && EndsInTail(p) && Trimmed(p)
    ensures var found := ManifestResources(p + DELIMITER + rest);
            |found| > 0 && found[0] != p
  {
    var s := p + DELIMITER + rest;
    var cut := p[..|p| - |TAIL|];
    FirstDelimiter(p, rest);
    assert s[..|cut|] == cut;
    assert IsSpace(TAIL[0]) && p[|cut|] == TAIL[0];
    assert cut[0] == p[0];
    TrimSpaceFacts(cut);
  }

  lemma SplitAlone(p: string)
    requires !HasDelimiter(p)
    ensures Split(p) == [p]
  {
  }

  /** A clean first resource in front of a text comes back before the resources of that text. */
  lemma {:induction false} FirstSurvives(first: string, rest: string)
    requires first != "" && Trimmed(first) && !HasDelimiter(first) && !EndsInTail(first)
    ensures ManifestResources(first + DELIMITER + rest) == [first] + ManifestResources(rest)
  {
    TrimSpaceFacts(first);
    SplitFirst(first, rest);
    assert ([first] + Split(rest))[1..] == Split(rest);
  }

  lemma {:induction false} CleanSurvives(resources: seq<string>)
    requires Clean(resources)
    ensures ManifestResources(MergeResources(resources)) == resources
  {
    if |resources| == 0 {
      SplitAlone("");
    } else if |resources| == 1 {
      TrimSpaceFacts(resources[0]);
      SplitAlone(resources[0]);
      assert [resources[0]][1..] == [] && Compact([]) == [];
      assert resources == [resources[0]];
    } else {
      CleanSurvives(resources[1..]);
      FirstSurvives(resources[0], MergeResources(resources[1..]));
    }
  }

  lemma {:induction false} SurvivorsAreClean(resources: seq<string>)
    requires ManifestResources(MergeResources(resources)) == resources
    ensures Clean(resources)
  {
    forall i | 0 <= i < |resources|
      ensures resources[i] != "" && Trimmed(resources[i]) && !HasDelimiter(resources[i])
    {
      ResourcesAreSound(Split(MergeResources(resources)), i);
    }
    if |resources| > 1 {
      var first, rest := resources[0], MergeResources(resources[1..]);
      if EndsInTail(first) {
        TailIsLost(first, rest);
        assert false;
      } else {
        SplitFirst(first, rest);
        TrimSpaceFacts(first);
        assert ([first] + Split(rest))[1..] == Split(rest);
        assert ManifestResources(rest) == resources[1..];
        SurvivorsAreClean(resources[1..]);
      }
    }
  }

  /** Splitting undoes joining for exactly the clean lists. */
  lemma SplitUndoesMergeIff(resources: seq<string>)
    ensures ManifestResources(MergeResources(resources)) == resources <==> Clean(resources)
  {
    if Clean(resources) {
      CleanSurvives(resources);
    }
    if ManifestResources(MergeResources(resources)) == resources {
      SurvivorsAreClean(resources);
    }
  }
}
