/**
 Domain names as dotted strings, and the key reversal both the build side and the query side use.

 Normalized names are ASCII, so a character stands for a byte.
 */
module Names {

  /** `str::split('.')`: always at least one piece, and no piece holds a dot. */
  function Split(s: string): (r: seq<string>)
    ensures |r| >= 1 && forall l | l in r :: '.' !in l
  {
    if s == "" then [""]
    else if s[0] == '.' then [""] + Split(s[1..])
    else
      var r := Split(s[1..]);
      [[s[0]] + r[0]] + r[1..]
  }

  /** `join(".")`. */
  function Join(ls: seq<string>): string
    requires |ls| >= 1
  {
    if |ls| == 1 then ls[0] else ls[0] + "." + Join(ls[1..])
  }

  function Rev<T>(ls: seq<T>): (r: seq<T>)
    ensures |r| == |ls|
    ensures forall i | 0 <= i < |ls| :: r[i] == ls[|ls| - 1 - i]
  {
    if ls == [] then [] else Rev(ls[1..]) + [ls[0]]
  }

  function ReverseKey(domain: string): string {
    Join(Rev(Split(domain)))
  }

  /** `d` is `q` itself or what remains of `q` after cutting it at one of its dots. */
  predicate LabelSuffix(d: string, q: string) {
    d == q || (|d| < |q| && q[|q| - |d|..] == d && q[|q| - |d| - 1] == '.')
  }

  /** Position `i` ends a run of whole labels of `s`. */
  predicate Boundary(s: string, i: int) {
    0 <= i <= |s| && (i == |s| || s[i] == '.')
  }

  function Attach(c: char, pieces: seq<string>): seq<string>
    requires |pieces| >= 1
  {
    if c == '.' then [""] + pieces else [[c] + pieces[0]] + pieces[1..]
  }

  lemma SplitCons(c: char, rest: string)
    ensures Split([c] + rest) == Attach(c, Split(rest))
  {
    assert ([c] + rest)[1..] == rest;
  }

  lemma AttachConcat(c: char, x: seq<string>, y: seq<string>)
    requires |x| >= 1
    ensures Attach(c, x + y) == Attach(c, x) + y
  {
    assert (x + y)[1..] == x[1..] + y;
  }

  lemma {:induction false} SplitAtDot(a: string, b: string)
    ensures Split(a + "." + b) == Split(a) + Split(b)
  {
    if a == "" {
      assert a + "." + b == ['.'] + b;
      SplitCons('.', b);
    } else {
      var rest := a[1..];
      SplitAtDot(rest, b);
      assert a == [a[0]] + rest && a + "." + b == [a[0]] + (rest + "." + b);
      SplitCons(a[0], rest);
      SplitCons(a[0], rest + "." + b);
      AttachConcat(a[0], Split(rest), Split(b));
    }
  }

  lemma {:induction false} JoinConcat(x: seq<string>, y: seq<string>)
    requires |x| >= 1 && |y| >= 1
    ensures Join(x + y) == Join(x) + "." + Join(y)
  {
    if |x| == 1 {
      assert (x + y)[1..] == y;
    } else {
      assert (x + y)[1..] == x[1..] + y;
      JoinConcat(x[1..], y);
      assert Join(x + y) == x[0] + "." + (Join(x[1..]) + "." + Join(y));
    }
  }

  lemma {:induction false} JoinSplit(s: string)
    ensures Join(Split(s)) == s
  {
    if s != "" {
      JoinSplit(s[1..]);
      var r := Split(s[1..]);
      if s[0] == '.' {
        assert Split(s)[1..] == r;
      } else {
        assert Split(s)[1..] == r[1..];
        assert s == [s[0]] + s[1..];
      }
    }
  }

  lemma {:induction false} SplitJoin(ls: seq<string>)
    requires |ls| >= 1 && forall l | l in ls :: '.' !in l
    ensures Split(Join(ls)) == ls
  {
    if |ls| == 1 {
      SplitNoDot(ls[0]);
    } else {
      SplitJoin(ls[1..]);
      SplitAtDot(ls[0], Join(ls[1..]));
      SplitNoDot(ls[0]);
      assert ls == [ls[0]] + ls[1..];
    }
  }

  lemma {:induction false} SplitNoDot(l: string)
    requires '.' !in l
    ensures Split(l) == [l]
  {
    if l != "" {
      SplitNoDot(l[1..]);
      assert l == [l[0]] + l[1..];
    }
  }

  /** Reversing the labels twice gives the name back, for every string. */
  lemma ReverseKeyInvolution(s: string)
    ensures ReverseKey(ReverseKey(s)) == s
  {
    SplitJoin(Rev(Split(s)));
    assert Rev(Rev(Split(s))) == Split(s);
    JoinSplit(s);
  }

  lemma ReverseKeyInjective(a: string, b: string)
    requires ReverseKey(a) == ReverseKey(b)
    ensures a == b
  {
    ReverseKeyInvolution(a);
    ReverseKeyInvolution(b);
  }

  lemma RevConcat<T>(x: seq<T>, y: seq<T>)
    ensures Rev(x + y) == Rev(y) + Rev(x)
  {}

  lemma ReverseKeyConcat(a: string, b: string)
    ensures ReverseKey(a + "." + b) == ReverseKey(b) + "." + ReverseKey(a)
  {
    SplitAtDot(a, b);
    RevConcat(Split(a), Split(b));
    JoinConcat(Rev(Split(b)), Rev(Split(a)));
  }

  /** A label-boundary suffix of a name is exactly a label-boundary prefix of its reversed key. */
  lemma SuffixIsBoundaryPrefix(d: string, q: string)
    ensures LabelSuffix(d, q) <==>
            var rd, rq := ReverseKey(d), ReverseKey(q);
            |rd| <= |rq| && Boundary(rq, |rd|) && rq[..|rd|] == rd
  {
    var rd, rq := ReverseKey(d), ReverseKey(q);
    if LabelSuffix(d, q) && d != q {
      var k := |q| - |d|;
      assert q == q[..k - 1] + "." + d;
      ReverseKeyConcat(q[..k - 1], d);
    }
    if |rd| <= |rq| && Boundary(rq, |rd|) && rq[..|rd|] == rd {
      if |rd| == |rq| {
        assert rq == rd;
        ReverseKeyInjective(d, q);
      } else {
        var tail := rq[|rd| + 1..];
        assert rq == rd + "." + tail;
        ReverseKeyConcat(rd, tail);
        ReverseKeyInvolution(d);
        ReverseKeyInvolution(q);
        assert q == ReverseKey(tail) + "." + d;
      }
    }
  }
}
