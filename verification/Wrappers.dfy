/** Values that may be missing: SQL NULL, an absent row, an omitted field; and facts
    about sets and sequences of any type. */
module Wrappers {

  datatype Option<+T> = None | Some(value: T)

  lemma {:induction false} SubsetIsSmaller<T>(a: set<T>, b: set<T>)
    requires a <= b
    ensures |a| <= |b|
  {
    if a != {} {
      var x :| x in a;
      SubsetIsSmaller(a - {x}, b - {x});
    }
  }

  // ---- Sequences read from the front ----------------------------------------

  lemma FrontOfSum<T>(s: seq<T>, t: seq<T>)
    requires s != []
    ensures s + t == [s[0]] + (s[1..] + t) && (s + t)[1..] == s[1..] + t
  {
  }

  lemma RestOfSum<T>(x: T, t: seq<T>)
    ensures ([x] + t)[0] == x && ([x] + t)[1..] == t
  {
  }

  lemma FrontOfPrefix<T>(s: seq<T>, n: nat)
    requires 0 < n <= |s|
    ensures s[..n] == [s[0]] + s[1..][..n - 1]
  {
  }

  lemma ThreeParts<T>(s: seq<T>, low: nat, high: nat)
    requires low <= high <= |s|
    ensures s == s[..low] + (s[low..high] + s[high..])
  {
  }

  lemma SumRegroups<T>(a: seq<T>, b: seq<T>, c: seq<T>)
    ensures a + (b + c) == (a + b) + c
  {
  }

  lemma HeadAndRest<T>(s: seq<T>)
    requires s != []
    ensures [s[0]] + s[1..] == s
  {
  }
}
