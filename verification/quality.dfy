/** The four reading-quality levels and their hierarchy,
    poor < questionable < good < excellent. */
module Quality {
  import opened Wrappers
  import opened Text

  datatype Level = Poor | Questionable | Good | Excellent

  /** Position of a level in the hierarchy, lowest first. */
  function Rank(l: Level): nat {
    match l
    case Poor => 0
    case Questionable => 1
    case Good => 2
    case Excellent => 3
  }

  /** The name stored in the `quality` column and used as a request value. */
  function Name(l: Level): string {
    match l
    case Poor => "poor"
    case Questionable => "questionable"
    case Good => "good"
    case Excellent => "excellent"
  }

  /** Every level, in ascending order. */
  const Ascending: seq<Level> := [Poor, Questionable, Good, Excellent]

  lemma AscendingListsEveryLevelByRank(l: Level)
    ensures Rank(l) < |Ascending| && Ascending[Rank(l)] == l
    ensures l in Ascending
  {
  }

  /** The level whose name is exactly `s`, if any. */
  function Parse(s: string): (r: Option<Level>)
    ensures r.Some? ==> Name(r.value) == s
    ensures r.None? ==> forall l: Level :: Name(l) != s
  {
    if s == "poor" then Some(Poor)
    else if s == "questionable" then Some(Questionable)
    else if s == "good" then Some(Good)
    else if s == "excellent" then Some(Excellent)
    else None
  }

  /** Names and levels are in one-to-one correspondence. */
  lemma ParseName(l: Level)
    ensures Parse(Name(l)) == Some(l)
  {
  }

  /** The levels a threshold admits: the threshold itself and every higher
      level, in ascending order. */
  function AtLeast(t: Level): (r: seq<Level>)
    ensures forall l: Level :: l in r <==> Rank(l) >= Rank(t)
    ensures |r| > 0 && r[0] == t
    ensures forall i, j :: 0 <= i < j < |r| ==> Rank(r[i]) < Rank(r[j])
  {
    Ascending[Rank(t)..]
  }

  /** Raising the threshold only drops levels from the front of the allowed list. */
  lemma AtLeastMonotone(a: Level, b: Level)
    requires Rank(a) <= Rank(b)
    ensures AtLeast(a)[Rank(b) - Rank(a)..] == AtLeast(b)
    ensures forall l :: l in AtLeast(b) ==> l in AtLeast(a)
  {
    AtLeastListed(a);
    AtLeastListed(b);
  }

  /** The admitted levels of each threshold, written out. */
  lemma AtLeastListed(t: Level)
    ensures AtLeast(t) == match t
                          case Poor => [Poor, Questionable, Good, Excellent]
                          case Questionable => [Questionable, Good, Excellent]
                          case Good => [Good, Excellent]
                          case Excellent => [Excellent]
  {
  }

  /** The names of a sequence of levels, in the same order. */
  function Names(ls: seq<Level>): (r: seq<string>)
    ensures |r| == |ls|
    ensures forall i :: 0 <= i < |ls| ==> Parse(r[i]) == Some(ls[i])
  {
    seq(|ls|, i requires 0 <= i < |ls| => Name(ls[i]))
  }

  /** The names a threshold admits, e.g. `good` admits `["good", "excellent"]`. */
  function AllowedNames(t: Level): seq<string> {
    Names(AtLeast(t))
  }

  /** The admitted names are the names of the levels at or above the threshold,
      lowest first. */
  lemma AllowedNamesSpec(t: Level)
    ensures forall l: Level :: Name(l) in AllowedNames(t) <==> Rank(l) >= Rank(t)
    ensures forall i :: 0 <= i < |AllowedNames(t)| ==>
              Parse(AllowedNames(t)[i]).Some? && Rank(Parse(AllowedNames(t)[i]).value) >= Rank(t)
    ensures forall i, j :: 0 <= i < j < |AllowedNames(t)| ==>
              Rank(Parse(AllowedNames(t)[i]).value) < Rank(Parse(AllowedNames(t)[j]).value)
    ensures |AllowedNames(t)| > 0 && AllowedNames(t)[0] == Name(t)
  {
    var ls := AtLeast(t);
    var r := Names(ls);
    forall l: Level
      ensures Name(l) in r <==> Rank(l) >= Rank(t)
    {
      if Name(l) in r {
        var i :| 0 <= i < |r| && r[i] == Name(l);
        ParseName(l);
        assert ls[i] == l;
      }
      if Rank(l) >= Rank(t) {
        var i :| 0 <= i < |ls| && ls[i] == l;
        assert Parse(r[i]) == Some(l);
        ParseName(l);
      }
    }
    ParseName(t);
  }

  lemma GoodAdmitsGoodAndExcellent()
    ensures AllowedNames(Good) == ["good", "excellent"]
  {
    assert AtLeast(Good) == [Good, Excellent];
  }

  /** A threshold as the request spells it, looked up without regard to case. */
  function Resolve(threshold: string): (r: Option<Level>)
    ensures r.Some? ==> Lower(threshold) == Name(r.value) && |threshold| == |Name(r.value)|
    ensures r.None? ==> forall l: Level :: Lower(threshold) != Name(l)
  {
    Parse(Lower(threshold))
  }

  /** Two spellings that differ only in the case of their letters resolve alike. */
  lemma ResolveIgnoresCase(s: string, t: string)
    requires |s| == |t|
    requires forall i :: 0 <= i < |s| ==> LowerChar(s[i]) == LowerChar(t[i])
    ensures Resolve(s) == Resolve(t)
  {
    assert Lower(s) == Lower(t);
  }

  lemma ResolveUpperCaseGood()
    ensures Resolve("GoOD") == Some(Good)
    ensures AllowedNames(Resolve("GoOD").value) == ["good", "excellent"]
  {
    assert Lower("GoOD") == "good";
  }
}
