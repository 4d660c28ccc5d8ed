/** The tuple file of src/pmfuzz/tools/cp-map: one undelimited line `<level><index>` per non-zero byte. */
module CpMap {
  import opened Text
  import opened Words

  /** A hit level and the index of the byte. */
  datatype Tuple = Tuple(level: nat, index: nat)

  /** `int(np.log2(b)) + 1` */
  function Level(b: nat): (v: nat)
    requires 0 < b
    ensures 1 <= v && Pow2(v - 1) <= b < Pow2(v)
    decreases b
  {
    if b == 1 then 1 else Level(b / 2) + 1
  }

  lemma LevelOfByte(b: nat)
    requires 0 < b < 256
    ensures 1 <= Level(b) <= 8
  {
    assert Pow2(8) == 256;
    if Level(b) > 8 {
      Pow2Grows(8, Level(b) - 1);
    }
  }

  /** The tuples a map stands for: its non-zero bytes in order. */
  function Tuples(arr: seq<bv8>): seq<Tuple> {
    if arr == [] then []
    else
      var i := |arr| - 1;
      if arr[i] != 0 then Tuples(arr[..i]) + [Tuple(Level(arr[i] as nat), i)] else Tuples(arr[..i])
  }

  /** A line without its newline. */
  function Line(t: Tuple): string {
    Dec(t.level) + Dec(t.index)
  }

  function Lines(ts: seq<Tuple>): string {
    if ts == [] then "" else Lines(ts[..|ts| - 1]) + Line(ts[|ts| - 1]) + "\n"
  }

  lemma OneMore(ts: seq<Tuple>, t: Tuple)
    ensures Lines(ts + [t]) == Lines(ts) + Line(t) + "\n"
  {
    assert (ts + [t])[..|ts|] == ts;
  }

  lemma TuplesPrefix(arr: seq<bv8>, i: nat)
    requires i < |arr|
    ensures arr[i] != 0 ==> Tuples(arr[..i + 1]) == Tuples(arr[..i]) + [Tuple(Level(arr[i] as nat), i)]
    ensures arr[i] == 0 ==> Tuples(arr[..i + 1]) == Tuples(arr[..i])
  {
    assert arr[..i + 1][..i] == arr[..i];
  }

  /** The loop of `main`. */
  method WriteTuples(arr: seq<bv8>) returns (out: string, cnt: nat)
    ensures out == Lines(Tuples(arr)) && cnt == |Tuples(arr)|
  {
    out, cnt := "", 0;
    for i := 0 to |arr|
      invariant out == Lines(Tuples(arr[..i])) && cnt == |Tuples(arr[..i])|
    {
      TuplesPrefix(arr, i);
      if arr[i] != 0 {
        var val := Level(arr[i] as nat);
        OneMore(Tuples(arr[..i]), Tuple(val, i));
        out := out + (Dec(val) + Dec(i)) + "\n";
        cnt := cnt + 1;
      }
    }
    assert arr[..|arr|] == arr;
  }

  /** Reading a file back: each line is one digit of level and the rest index. */
  function ReadLine(line: string): Option<Tuple> {
    if |line| >= 2 && IsDigits(line[..1]) && IsDigits(line[1..]) then Some(Tuple(Value(line[..1]), Value(line[1..])))
    else None
  }

  const NEWLINE: set<char> := {'\n'}

  function ReadAll(lines: seq<string>): Option<seq<Tuple>> {
    if lines == [] then Some([])
    else
      match (ReadAll(lines[..|lines| - 1]), ReadLine(lines[|lines| - 1]))
      case (Some(ts), Some(t)) => Some(ts + [t])
      case _ => None
  }

  /** All newline-terminated lines of a text. */
  function ReadTuples(text: string): Option<seq<Tuple>> {
    var lines := Split(text, NEWLINE);
    if lines[|lines| - 1] != "" then None else ReadAll(lines[..|lines| - 1])
  }

  lemma ReadLineOf(t: Tuple)
    requires 1 <= t.level <= 8
    ensures Free(Line(t), NEWLINE) && ReadLine(Line(t)) == Some(t)
  {
    var a, b := Dec(t.level), Dec(t.index);
    ValueDec(t.level);
    ValueDec(t.index);
    assert |a| == 1;
    assert (a + b)[..1] == a && (a + b)[1..] == b;
  }

  function Bodies(ts: seq<Tuple>): seq<string> {
    if ts == [] then [] else Bodies(ts[..|ts| - 1]) + [Line(ts[|ts| - 1])]
  }

  lemma SplitOneMore(text: string, bodies: seq<string>, line: string)
    requires Split(text, NEWLINE) == bodies + [""] && Free(line, NEWLINE)
    ensures Split(text + line + "\n", NEWLINE) == bodies + [line] + [""]
  {
    CutExtend(text, line, NEWLINE);
    CutChar(text + line, '\n', NEWLINE);
    assert "" + line == line;
    assert AddLast(bodies + [""], line) == bodies + [line];
    assert text + line + "\n" == text + line + ['\n'];
  }

  lemma {:induction false} SplitLines(ts: seq<Tuple>)
    requires forall i | 0 <= i < |ts| :: 1 <= ts[i].level <= 8
    ensures Split(Lines(ts), NEWLINE) == Bodies(ts) + [""]
  {
    if ts == [] {
      CutOne("", NEWLINE);
    } else {
      var n := |ts| - 1;
      SplitLines(ts[..n]);
      ReadLineOf(ts[n]);
      SplitOneMore(Lines(ts[..n]), Bodies(ts[..n]), Line(ts[n]));
    }
  }

  lemma {:induction false} ReadBodies(ts: seq<Tuple>)
    requires forall i | 0 <= i < |ts| :: 1 <= ts[i].level <= 8
    ensures ReadAll(Bodies(ts)) == Some(ts)
  {
    if ts != [] {
      var n := |ts| - 1;
      ReadBodies(ts[..n]);
      ReadLineOf(ts[n]);
      ReadOneMore(Bodies(ts[..n]), Line(ts[n]));
      assert ts == ts[..n] + [ts[n]];
    }
  }

  lemma ReadOneMore(lines: seq<string>, line: string)
    requires ReadAll(lines).Some? && ReadLine(line).Some?
    ensures ReadAll(lines + [line]) == Some(ReadAll(lines).value + [ReadLine(line).value])
  {
    assert (lines + [line])[..|lines|] == lines;
  }

  lemma {:induction false} TuplesInRange(arr: seq<bv8>)
    ensures forall i | 0 <= i < |Tuples(arr)| :: 1 <= Tuples(arr)[i].level <= 8
  {
    if arr != [] {
      var i := |arr| - 1;
      TuplesInRange(arr[..i]);
      if arr[i] != 0 {
        LevelOfByte(arr[i] as nat);
      }
    }
  }

  /** The lines have no delimiter between level and index, and still decode: for every map,
      reading the file back gives exactly the non-zero indices in order with their levels. */
  lemma RoundTrip(arr: seq<bv8>)
    ensures ReadTuples(Lines(Tuples(arr))) == Some(Tuples(arr))
  {
    var ts := Tuples(arr);
    TuplesInRange(arr);
    SplitLines(ts);
    ReadBodies(ts);
    assert (Bodies(ts) + [""])[..|Bodies(ts)|] == Bodies(ts);
  }

  /** An index is listed exactly when its byte is not zero, with the level of the byte. */
  lemma {:induction false} TuplesMeaning(arr: seq<bv8>, i: nat, v: nat)
    ensures Tuple(v, i) in Tuples(arr) <==> i < |arr| && arr[i] != 0 && v == Level(arr[i] as nat)
  {
    if arr != [] {
      TuplesMeaning(arr[..|arr| - 1], i, v);
    }
  }

  /** The indices are listed in increasing order, each once. */
  lemma {:induction false} TuplesOrdered(arr: seq<bv8>)
    ensures forall i, j | 0 <= i < j < |Tuples(arr)| :: Tuples(arr)[i].index < Tuples(arr)[j].index
    ensures forall i | 0 <= i < |Tuples(arr)| :: Tuples(arr)[i].index < |arr|
  {
    if arr != [] {
      TuplesOrdered(arr[..|arr| - 1]);
    }
  }

  /** Level `v` stands for the bytes from 2^(v-1) up to, not including, 2^v. */
  lemma LevelUnique(b: nat, v: nat)
    requires 0 < b
    ensures v == Level(b) <==> Pow2(v) <= 2 * b < 2 * Pow2(v)
  {
    if v < Level(b) {
      Pow2Grows(v, Level(b) - 1);
    } else if v > Level(b) {
      Pow2Grows(Level(b), v - 1);
    }
  }

  /** With levels of two digits the same undelimited format would be ambiguous. */
  lemma TwoDigitLevelsClash()
    ensures Line(Tuple(11, 2)) == Line(Tuple(1, 12))
  {
    assert Dec(11) == "11" && Dec(12) == "12" && Dec(1) == "1" && Dec(2) == "2";
  }
}
