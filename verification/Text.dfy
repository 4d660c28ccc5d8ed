/** The string operations the Python code uses: `in`, `replace`, `split`, `join`-like rebuilding,
    and decimal numbers. */
module Text {

  datatype Option<+T> = None | Some(value: T)

  /** `p in s` */
  predicate Contains(s: string, p: string) {
    p <= s || (s != "" && Contains(s[1..], p))
  }

  lemma {:induction false} ContainsIff(s: string, p: string)
    ensures Contains(s, p) <==> exists i | 0 <= i <= |s| :: p <= s[i..]
  {
    if p <= s {
      assert s[0..] == s;
    } else if s != "" {
      ContainsIff(s[1..], p);
      forall i | 1 <= i <= |s|
        ensures s[i..] == s[1..][i - 1..]
      {
      }
      if exists i | 0 <= i <= |s| :: p <= s[i..] {
        var i :| 0 <= i <= |s| && p <= s[i..];
        assert s[0..] == s;
        assert p <= s[1..][i - 1..];
      }
      if Contains(s[1..], p) {
        var j :| 0 <= j <= |s[1..]| && p <= s[1..][j..];
        assert p <= s[j + 1..];
      }
    }
  }

  /** `s.replace(p, r)`: left to right, non-overlapping. */
  function Replace(s: string, p: string, r: string): string
    requires p != ""
  {
    if p <= s then r + Replace(s[|p|..], p, r)
    else if s == "" then ""
    else [s[0]] + Replace(s[1..], p, r)
  }

  /** No occurrence of `p` in `a + b` starts inside `a`. */
  ghost predicate NoStart(a: string, b: string, p: string) {
    forall k | 0 <= k < |a| :: !(p <= (a + b)[k..])
  }

  lemma {:induction false} ReplaceSkip(a: string, b: string, p: string, r: string)
    requires p != "" && NoStart(a, b, p)
    ensures Replace(a + b, p, r) == a + Replace(b, p, r)
  {
    if a == "" {
      assert a + b == b;
    } else {
      assert (a + b)[0..] == a + b;
      assert (a + b)[1..] == a[1..] + b;
      NoStartTail(a, b, p);
      ReplaceSkip(a[1..], b, p, r);
    }
  }

  lemma NoStartTail(a: string, b: string, p: string)
    requires a != "" && NoStart(a, b, p)
    ensures NoStart(a[1..], b, p)
  {
    forall k | 0 <= k < |a[1..]|
      ensures !(p <= (a[1..] + b)[k..])
    {
      assert (a[1..] + b)[k..] == (a + b)[k + 1..];
    }
  }

  lemma {:induction false} ReplaceNone(s: string, p: string, r: string)
    requires p != "" && !Contains(s, p)
    ensures Replace(s, p, r) == s
  {
    if s != "" {
      ReplaceNone(s[1..], p, r);
    }
  }

  lemma ReplaceHead(p: string, s: string, r: string)
    requires p != ""
    ensures Replace(p + s, p, r) == r + Replace(s, p, r)
  {
    assert (p + s)[|p|..] == s;
  }

  lemma {:induction false} ContainsAt(a: string, p: string, b: string)
    ensures Contains(a + p + b, p)
  {
    if a == "" {
      assert a + p + b == p + b;
    } else {
      ContainsAt(a[1..], p, b);
      assert (a + p + b)[1..] == a[1..] + p + b;
    }
  }

  /** A pattern with a character the text lacks does not occur. */
  lemma {:induction false} LacksChar(s: string, p: string, c: char)
    requires c in p && c !in s
    ensures !Contains(s, p)
  {
    if s != "" {
      LacksChar(s[1..], p, c);
    }
  }

  /** A pattern with a pair of adjacent characters the text lacks does not occur. */
  lemma {:induction false} LacksPair(s: string, p: string, j: nat)
    requires j + 1 < |p|
    requires forall k | 0 <= k < |s| - 1 :: !(s[k] == p[j] && s[k + 1] == p[j + 1])
    ensures !Contains(s, p)
  {
    if |p| <= |s| {
      assert !(s[j] == p[j] && s[j + 1] == p[j + 1]);
    }
    if s != "" {
      forall k | 0 <= k < |s[1..]| - 1
        ensures !(s[1..][k] == p[j] && s[1..][k + 1] == p[j + 1])
      {
        assert s[1..][k] == s[k + 1] && s[1..][k + 1] == s[k + 2];
      }
      LacksPair(s[1..], p, j);
    }
  }

  // ----- split -----

  /** The pieces of a split and the separators between them. */
  datatype Pieces = Pieces(ts: seq<string>, ds: string)

  ghost predicate Ok(p: Pieces) {
    |p.ts| == |p.ds| + 1
  }

  /** One more character of the text. */
  function Step(p: Pieces, c: char, seps: set<char>): (r: Pieces)
    requires Ok(p)
    ensures Ok(r)
  {
    if c in seps then Pieces(p.ts + [""], p.ds + [c]) else Pieces(AddLast(p.ts, [c]), p.ds)
  }

  function Cut(s: string, seps: set<char>): (p: Pieces)
    ensures Ok(p)
  {
    if s == "" then Pieces([""], "") else Step(Cut(s[..|s| - 1], seps), s[|s| - 1], seps)
  }

  /** Splitting at every character of `seps`: `s.split(',')`, `re.split(',|\.', s)`. */
  function Split(s: string, seps: set<char>): (ts: seq<string>)
    ensures |ts| >= 1
  {
    Cut(s, seps).ts
  }

  /** The separators met by `Split`, in order. */
  function Delims(s: string, seps: set<char>): (ds: string)
    ensures |ds| + 1 == |Split(s, seps)|
  {
    Cut(s, seps).ds
  }

  /** Appends text to the last piece. */
  function AddLast(ts: seq<string>, b: string): (us: seq<string>)
    requires |ts| >= 1
    ensures |us| == |ts|
  {
    ts[..|ts| - 1] + [ts[|ts| - 1] + b]
  }

  lemma AddLastTwice(ts: seq<string>, b: string, c: string)
    requires |ts| >= 1
    ensures AddLast(AddLast(ts, b), c) == AddLast(ts, b + c)
    ensures AddLast(ts, "") == ts
  {
    assert ts[|ts| - 1] + b + c == ts[|ts| - 1] + (b + c);
    assert ts[|ts| - 1] + "" == ts[|ts| - 1];
  }

  /** Puts the pieces back together with their delimiters. */
  function Join(ts: seq<string>, ds: string): string
    requires |ts| == |ds| + 1
  {
    if ds == "" then ts[0]
    else Join(ts[..|ts| - 1], ds[..|ds| - 1]) + [ds[|ds| - 1]] + ts[|ts| - 1]
  }

  predicate Free(s: string, seps: set<char>) {
    forall i | 0 <= i < |s| :: s[i] !in seps
  }

  lemma CutChar(a: string, c: char, seps: set<char>)
    ensures Cut(a + [c], seps) == Step(Cut(a, seps), c, seps)
  {
    assert (a + [c])[..|a + [c]| - 1] == a;
  }

  lemma LastApart<T>(a: seq<T>, b: seq<T>)
    requires b != []
    ensures b == b[..|b| - 1] + [b[|b| - 1]]
    ensures a + b == a + b[..|b| - 1] + [b[|b| - 1]]
  {
  }

  lemma {:induction false} CutExtend(a: string, b: string, seps: set<char>)
    requires Free(b, seps)
    ensures Cut(a + b, seps) == Pieces(AddLast(Cut(a, seps).ts, b), Cut(a, seps).ds)
  {
    var ts := Cut(a, seps).ts;
    if b == "" {
      assert a + b == a;
      AddLastTwice(ts, "", "");
    } else {
      var b', c := b[..|b| - 1], b[|b| - 1];
      CutExtend(a, b', seps);
      CutChar(a + b', c, seps);
      AddLastTwice(ts, b', [c]);
      LastApart(a, b);
    }
  }

  lemma CutSep(a: string, c: char, b: string, seps: set<char>)
    requires c in seps && Free(b, seps)
    ensures Cut(a + [c] + b, seps) == Pieces(Cut(a, seps).ts + [b], Cut(a, seps).ds + [c])
  {
    CutChar(a, c, seps);
    CutExtend(a + [c], b, seps);
    assert "" + b == b;
  }

  lemma CutOne(b: string, seps: set<char>)
    requires Free(b, seps)
    ensures Cut(b, seps) == Pieces([b], "")
  {
    CutExtend("", b, seps);
    assert "" + b == b;
  }

  /** Splitting undoes joining... */
  lemma {:induction false} SplitJoin(ts: seq<string>, ds: string, seps: set<char>)
    requires |ts| == |ds| + 1
    requires forall i | 0 <= i < |ts| :: Free(ts[i], seps)
    requires forall i | 0 <= i < |ds| :: ds[i] in seps
    ensures Cut(Join(ts, ds), seps) == Pieces(ts, ds)
  {
    if ds == "" {
      CutOne(ts[0], seps);
    } else {
      var n := |ds|;
      SplitJoin(ts[..n], ds[..n - 1], seps);
      CutSep(Join(ts[..n], ds[..n - 1]), ds[n - 1], ts[n], seps);
      LastApart([], ts);
      LastApart([], ds);
    }
  }

  lemma {:induction false} SplitPieces(s: string, seps: set<char>)
    ensures forall i | 0 <= i < |Cut(s, seps).ts| :: Free(Cut(s, seps).ts[i], seps)
    ensures forall i | 0 <= i < |Cut(s, seps).ds| :: Cut(s, seps).ds[i] in seps
  {
    if s != "" {
      SplitPieces(s[..|s| - 1], seps);
    }
  }

  lemma JoinExtend(ts: seq<string>, ds: string, b: string)
    requires |ts| == |ds| + 1
    ensures Join(AddLast(ts, b), ds) == Join(ts, ds) + b
  {
    assert AddLast(ts, b)[..|ts| - 1] == ts[..|ts| - 1];
  }

  /** ...and joining undoes splitting. */
  lemma {:induction false} JoinSplit(s: string, seps: set<char>)
    ensures Join(Cut(s, seps).ts, Cut(s, seps).ds) == s
  {
    if s != "" {
      var s', c := s[..|s| - 1], s[|s| - 1];
      assert s == s' + [c];
      JoinSplit(s', seps);
      JoinSplitStep(s', c, seps);
    }
  }

  lemma JoinSplitStep(s: string, c: char, seps: set<char>)
    requires Join(Cut(s, seps).ts, Cut(s, seps).ds) == s
    ensures Join(Cut(s + [c], seps).ts, Cut(s + [c], seps).ds) == s + [c]
  {
    CutChar(s, c, seps);
    JoinStep(Cut(s, seps), c, seps);
  }

  lemma JoinStep(p: Pieces, c: char, seps: set<char>)
    requires Ok(p)
    ensures var r := Step(p, c, seps); Join(r.ts, r.ds) == Join(p.ts, p.ds) + [c]
  {
    if c in seps {
      assert (p.ts + [""])[..|p.ts|] == p.ts && (p.ds + [c])[..|p.ds|] == p.ds;
      assert Join(p.ts, p.ds) + [c] + "" == Join(p.ts, p.ds) + [c];
    } else {
      JoinExtend(p.ts, p.ds, [c]);
    }
  }

  // ----- text before the first delimiter -----

  /** `s[:s.find(c)]` when `c` occurs, else `s`. */
  function Before(s: string, c: char): string {
    if s == "" || s[0] == c then "" else [s[0]] + Before(s[1..], c)
  }

  lemma {:induction false} BeforeFree(a: string, b: string, c: char)
    requires c !in a && (b == "" || b[0] == c)
    ensures Before(a + b, c) == a
  {
    if a != "" {
      assert (a + b)[1..] == a[1..] + b;
      BeforeFree(a[1..], b, c);
    }
  }

  // ----- decimal numbers -----

  predicate IsDigits(s: string) {
    s != "" && forall i | 0 <= i < |s| :: '0' <= s[i] <= '9'
  }

  function DigitChar(d: nat): char
    requires d < 10
  {
    "0123456789"[d]
  }

  /** `str(n)` */
  function Dec(n: nat): (s: string)
    ensures IsDigits(s)
  {
    if n < 10 then [DigitChar(n)] else Dec(n / 10) + [DigitChar(n % 10)]
  }

  /** `int(s)` for a string of decimal digits. */
  function Value(s: string): nat
    requires IsDigits(s)
  {
    var d := s[|s| - 1] as int - '0' as int;
    if |s| == 1 then d else 10 * Value(s[..|s| - 1]) + d
  }

  lemma {:induction false} ValueDec(n: nat)
    ensures Value(Dec(n)) == n
  {
    if n >= 10 {
      ValueDec(n / 10);
      assert Dec(n)[..|Dec(n)| - 1] == Dec(n / 10);
    }
  }
}
