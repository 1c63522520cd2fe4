/** File versions and their order, as helpers/update/src/update.c compares them. */
module Versions {
  import opened Bytes

  datatype Version = Version(major: Byte, minor: Byte, patch: Byte, build: nat, timestamp: nat)

  const OK := 0
  const OLD_VERSION := 1

  /** vs_update_compare_version: OK when the update is newer. */
  function Compare(update: Version, current: Version): (code: int) {
    if update.major > current.major then OK
    else if update.major == current.major then
      if update.minor > current.minor then OK
      else if update.minor == current.minor then
        if update.patch > current.patch then OK
        else if update.patch == current.patch && update.build > current.build then OK
        else OLD_VERSION
      else OLD_VERSION
    else OLD_VERSION
  }

  predicate Newer(a: Version, b: Version) {
    Compare(a, b) == OK
  }

  /** The four numbers that count, most significant first. */
  function Rank(v: Version): seq<int> {
    [v.major, v.minor, v.patch, v.build]
  }

  /** x and y agree before position i, where x is bigger. */
  predicate BiggerAt(x: seq<int>, y: seq<int>, i: nat)
    requires i < |x| == |y|
  {
    x[i] > y[i] && x[..i] == y[..i]
  }

  /** a is bigger in the first number that differs. */
  ghost predicate Higher(a: Version, b: Version) {
    exists i: nat :: i < 4 && BiggerAt(Rank(a), Rank(b), i)
  }

  /** One version is newer than another exactly when it is bigger in the first number that
      differs; the timestamp does not matter. */
  lemma CompareIsLexicographic(a: Version, b: Version)
    ensures Newer(a, b) <==> Higher(a, b)
  {
    var x, y := Rank(a), Rank(b);
    if Newer(a, b) {
      var i := if x[0] != y[0] then 0 else if x[1] != y[1] then 1 else if x[2] != y[2] then 2 else 3;
      assert BiggerAt(x, y, i);
    }
    forall i: nat | i < 4 && BiggerAt(x, y, i)
      ensures Newer(a, b)
    {
      assert i > 0 ==> x[0] == x[..i][0] && y[0] == y[..i][0];
      assert i > 1 ==> x[1] == x[..i][1] && y[1] == y[..i][1];
      assert i > 2 ==> x[2] == x[..i][2] && y[2] == y[..i][2];
    }
  }

  /** A strict order, total on everything but the timestamp. */
  lemma CompareIsStrictOrder(a: Version, b: Version, c: Version)
    ensures !Newer(a, a)
    ensures Newer(a, b) && Newer(b, c) ==> Newer(a, c)
    ensures Newer(a, b) || Newer(b, a) || Rank(a) == Rank(b)
    ensures Rank(a) == Rank(b) ==> Newer(a, c) == Newer(b, c)
  {
    if Rank(a) == Rank(b) {
      assert Rank(a)[0] == Rank(b)[0] && Rank(a)[1] == Rank(b)[1] && Rank(a)[2] == Rank(b)[2]
             && Rank(a)[3] == Rank(b)[3];
    }
  }

  /** What is not lower than a version not lower than v is not lower than v. */
  lemma NotLower(v: Version, a: Version, b: Version)
    requires !Higher(v, a) && (a == b || Higher(b, a))
    ensures !Higher(v, b)
  {
    CompareIsLexicographic(v, a);
    CompareIsLexicographic(v, b);
    CompareIsLexicographic(b, a);
    CompareIsStrictOrder(v, b, a);
    hide Higher, Compare;
  }
}
