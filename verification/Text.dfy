// Strings as Python's string methods treat them.
module Text {

  // `part in s`
  predicate Contains(s: string, part: string) {
    part <= s || (s != "" && Contains(s[1..], part))
  }

  // s.split(c)
  function Split(s: string, c: char): (parts: seq<string>)
    ensures |parts| > 0
  {
    if s == "" then [""]
    else
      var rest := Split(s[1..], c);
      if s[0] == c then [""] + rest else [[s[0]] + rest[0]] + rest[1..]
  }

  // c.join(parts)
  function Join(parts: seq<string>, c: char): string
    requires |parts| > 0
  {
    if |parts| == 1 then parts[0] else parts[0] + [c] + Join(parts[1..], c)
  }

  predicate Free(s: string, c: char) {
    c !in s
  }

  predicate AllFree(parts: seq<string>, c: char) {
    forall i | 0 <= i < |parts| :: Free(parts[i], c)
  }

  lemma JoinCons(a: string, rest: seq<string>, c: char)
    requires |rest| > 0
    ensures Join([a] + rest, c) == a + [c] + Join(rest, c)
  {
    assert ([a] + rest)[1..] == rest;
  }

  lemma {:induction false} JoinSplit(s: string, c: char)
    ensures Join(Split(s, c), c) == s
  {
    if s != "" {
      JoinSplit(s[1..], c);
      var rest := Split(s[1..], c);
      if s[0] == c {
        assert ([""] + rest)[1..] == rest;
      } else {
        assert ([[s[0]] + rest[0]] + rest[1..])[1..] == rest[1..];
      }
    }
  }

  lemma {:induction false} SplitIsFree(s: string, c: char)
    ensures AllFree(Split(s, c), c)
  {
    if s != "" {
      SplitIsFree(s[1..], c);
    }
  }

  lemma {:induction false} SplitFirst(a: string, t: string, c: char)
    requires Free(a, c)
    ensures Split(a, c) == [a] && Split(a + [c] + t, c) == [a] + Split(t, c)
  {
    var s := a + [c] + t;
    if a == "" {
      assert s == [c] + t && s[1..] == t;
    } else {
      SplitFirst(a[1..], t, c);
      assert s[1..] == a[1..] + [c] + t;
      assert a == [a[0]] + a[1..];
    }
  }

  lemma {:induction false} SplitCounts(a: string, t: string, c: char)
    ensures |Split(a + [c] + t, c)| == |Split(a, c)| + |Split(t, c)|
  {
    var s := a + [c] + t;
    if a == "" {
      assert s == [c] + t && s[1..] == t;
    } else {
      SplitCounts(a[1..], t, c);
      assert s[1..] == a[1..] + [c] + t;
    }
  }

  lemma {:induction false} SplitHolds(a: string, c: char)
    ensures |Split(a, c)| > 1 <==> c in a
  {
    if a != "" {
      SplitHolds(a[1..], c);
    }
  }

  lemma {:induction false} SplitJoin(parts: seq<string>, c: char)
    requires |parts| > 0 && AllFree(parts, c)
    ensures Split(Join(parts, c), c) == parts
  {
    if |parts| == 1 {
      SplitFirst(parts[0], "", c);
    } else {
      SplitJoin(parts[1..], c);
      SplitFirst(parts[0], Join(parts[1..], c), c);
    }
  }

  // Splitting gives the parts back exactly when none of them holds the separator.
  lemma SplitJoinExactly(parts: seq<string>, c: char)
    requires |parts| > 0
    ensures Split(Join(parts, c), c) == parts <==> AllFree(parts, c)
  {
    SplitIsFree(Join(parts, c), c);
    if AllFree(parts, c) {
      SplitJoin(parts, c);
    }
  }

  lemma {:induction false} JoinHolds(parts: seq<string>, c: char, d: char)
    requires |parts| > 0 && c != d
    ensures d in Join(parts, c) <==> exists i | 0 <= i < |parts| :: d in parts[i]
  {
    if |parts| > 1 {
      JoinHolds(parts[1..], c, d);
      assert parts == [parts[0]] + parts[1..];
    }
  }
}
