/**
 Names of histories: the storage writes them (pkg/storage/release.go) and the collector reads the
 version back out of them (pkg/controller/gc/controller.go).
 */
module HistoryNames {
  import opened Common

  // ---------- Decimal numbers ----------

  function Digit(d: nat): char
    requires d < 10
  {
    '0' + d as char
  }

  predicate IsDigit(c: char) {
    '0' <= c <= '9'
  }

  function Digits(n: nat): (s: string)
    ensures s != "" && forall c | c in s :: IsDigit(c)
  {
    if n < 10 then [Digit(n)] else Digits(n / 10) + [Digit(n % 10)]
  }

  /** strconv.Itoa, or %d. */
  function Itoa(v: int): string {
    if v < 0 then "-" + Digits(-v) else Digits(v)
  }

  /** The value of a non-empty string of digits. */
  function DigitsValue(s: string): Option<nat> {
    if s == "" || !IsDigit(s[|s| - 1]) then None
    else
      var last := (s[|s| - 1] - '0') as int;
      if |s| == 1 then Some(last)
      else match DigitsValue(s[..|s| - 1])
           case None => None
           case Some(n) => Some(10 * n + last)
  }

  const MAX_INT64 := 0x7fff_ffff_ffff_ffff
  const MIN_INT64 := -0x8000_0000_0000_0000

  /** strconv.Atoi: an optional sign, digits, and a value that fits the 64-bit int. */
  function Atoi(s: string): Option<int> {
    var negative := s != "" && s[0] == '-';
    var digits := if s != "" && (s[0] == '-' || s[0] == '+') then s[1..] else s;
    match DigitsValue(digits)
    case None => None
    case Some(n) =>
      var magnitude: int := n;
      var v := if negative then -magnitude else magnitude;
      if MIN_INT64 <= v <= MAX_INT64 then Some(v) else None
  }

  /** int addition wraps at 64 bits. */
  function Add64(a: int, b: int): int {
    var sum := a + b;
    if sum > MAX_INT64 then sum - 0x1_0000_0000_0000_0000
    else if sum < MIN_INT64 then sum + 0x1_0000_0000_0000_0000
    else sum
  }

  lemma {:induction false} DigitsRoundTrip(n: nat)
    ensures DigitsValue(Digits(n)) == Some(n)
  {
    if n >= 10 {
      DigitsRoundTrip(n / 10);
      var s := Digits(n);
      assert s[..|s| - 1] == Digits(n / 10);
    }
  }

  lemma AtoiOfItoa(v: int)
    requires MIN_INT64 <= v <= MAX_INT64
    ensures Atoi(Itoa(v)) == Some(v)
  {
    DigitsRoundTrip(if v < 0 then -v else v);
    if v < 0 {
      assert Itoa(v)[1..] == Digits(-v);
    } else {
      assert Itoa(v)[0] in Digits(v);
    }
  }

  // ---------- Names ----------

  /** generateReleaseHistoryName. */
  function Name(release: string, version: int): string {
    release + "-v" + Itoa(version)
  }

  lemma NoLetterInItoa(v: int, i: nat)
    requires i < |Itoa(v)|
    ensures Itoa(v)[i] != 'v'
  {
    if v < 0 {
      if i > 0 { assert Itoa(v)[i] in Digits(-v); }
    } else {
      assert Itoa(v)[i] in Digits(v);
    }
  }

  /** Two names agree only for the same release and the same version, whatever the releases are called. */
  lemma NamesAreInjective(r1: string, v1: int, r2: string, v2: int)
    requires Name(r1, v1) == Name(r2, v2)
    requires MIN_INT64 <= v1 <= MAX_INT64 && MIN_INT64 <= v2 <= MAX_INT64
    ensures r1 == r2 && v1 == v2
  {
    var s := Name(r1, v1);
    if |r1| < |r2| {
      LetterPlaces(r1, v1, r2, v2);
    } else if |r2| < |r1| {
      LetterPlaces(r2, v2, r1, v1);
    }
    assert s[..|r1|] == r1 && s[..|r2|] == r2;
    assert s[|r1| + 2..] == Itoa(v1) && s[|r2| + 2..] == Itoa(v2);
    AtoiOfItoa(v1);
    AtoiOfItoa(v2);
  }

  /** The last letter v of a name is the one before its number. */
  lemma LetterPlaces(r1: string, v1: int, r2: string, v2: int)
    requires Name(r1, v1) == Name(r2, v2)
    ensures |r1| >= |r2|
  {
    if |r1| < |r2| {
      var s := Name(r2, v2);
      assert s[|r2| + 1] == 'v';
      assert Name(r1, v1)[|r2| + 1] == Itoa(v1)[|r2| - 1 - |r1|];
      NoLetterInItoa(v1, |r2| - 1 - |r1|);
    }
  }

  // ---------- Retention ----------

  datatype Verdict = Retain | Discard | Unrelated | OutOfRange | NotANumber | BadVersion

  /** ifRetainHistory; OutOfRange stands for the slice expression that panics. */
  function IfRetainHistory(release: string, current: int, limit: int, historyName: string): Verdict {
    if |historyName| < |release| || historyName[..|release|] != release then Unrelated
    else if |historyName| < |release| + 2 then OutOfRange
    else match Atoi(historyName[|release| + 2..])
         case None => NotANumber
         case Some(v) =>
           if v <= 0 then BadVersion
           else if Add64(v, limit) > current then Retain
           else Discard
  }

  /** On generated names the verdict is exactly the window test, and non-positive versions are errors. */
  lemma RetentionIsAWindow(release: string, version: int, current: int, limit: int)
    requires -0x8000_0000 <= version < 0x8000_0000 && -0x8000_0000 <= limit < 0x8000_0000
    ensures IfRetainHistory(release, current, limit, Name(release, version))
         == if version <= 0 then BadVersion
            else if version + limit > current then Retain
            else Discard
  {
    var s := Name(release, version);
    assert s[..|release|] == release && s[|release| + 2..] == Itoa(version);
    AtoiOfItoa(version);
  }

  lemma {:induction false} WindowSize(lo: int, hi: int, vs: set<int>)
    requires lo <= hi && forall v | v in vs :: lo < v <= hi
    ensures |vs| <= hi - lo
    decreases hi - lo
  {
    if lo == hi {
      if vs != {} {
        var v := Inhabitant(vs);
        assert false;
      }
    } else {
      WindowSize(lo, hi - 1, vs - {hi});
      assert hi in vs ==> vs == (vs - {hi}) + {hi};
      assert hi !in vs ==> vs - {hi} == vs;
    }
  }

  /** Of the histories up to the current version, at most `limit` are retained. */
  lemma AtMostLimitRetained(release: string, current: int, limit: int, vs: set<int>)
    requires 0 <= limit < 0x8000_0000
    requires forall v | v in vs ::
               && 0 < v <= current && v < 0x8000_0000
               && IfRetainHistory(release, current, limit, Name(release, v)) == Retain
    ensures |vs| <= limit
  {
    forall v | v in vs ensures current - limit < v <= current {
      RetentionIsAWindow(release, v, current, limit);
    }
    WindowSize(current - limit, current, vs);
  }
}
