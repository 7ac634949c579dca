/**
 * Splitting one CSV line into fields, as `parseCSVRow` in analyzer.cpp does:
 * no quoting, every comma is a delimiter, empty fields are kept, and a line
 * ending in a comma gets a final empty field.
 */
module Csv {

  /** Index of the first occurrence of `c` in `s`, or `|s|` when there is none
      (the position `std::string::find` reports, with `npos` written as `|s|`). */
  function FirstIndex(s: string, c: char): (i: nat)
    ensures i <= |s|
    ensures forall j :: 0 <= j < i ==> s[j] != c
    ensures i < |s| ==> s[i] == c
  {
    if s == [] then 0
    else if s[0] == c then 0
    else 1 + FirstIndex(s[1..], c)
  }

  /** The first occurrence is the only index with the three properties above. */
  lemma FirstIndexIs(s: string, c: char, i: nat)
    requires i <= |s|
    requires forall j :: 0 <= j < i ==> s[j] != c
    requires i < |s| ==> s[i] == c
    ensures FirstIndex(s, c) == i
  {
  }

  /** The pieces of `s` between commas: a string without a comma is one piece,
      so the empty string is the one piece `""`. */
  function Split(s: string): (r: seq<string>)
    ensures |r| >= 1
    decreases |s|
  {
    var i := FirstIndex(s, ',');
    if i == |s| then [s] else [s[..i]] + Split(s[i + 1..])
  }

  /** The fields `parseCSVRow` returns for a line: none for the empty line
      (the `getline` loop extracts nothing and no trailing field is added),
      the comma-separated pieces otherwise. */
  function Fields(line: string): (r: seq<string>)
    ensures |r| == 0 <==> line == []
  {
    if line == [] then [] else Split(line)
  }

  /** The fields glued back together with commas. */
  function Join(fs: seq<string>): string
    requires |fs| >= 1
  {
    if |fs| == 1 then fs[0] else fs[0] + "," + Join(fs[1..])
  }

  function CommaCount(s: string): nat
  {
    if s == [] then 0 else (if s[0] == ',' then 1 else 0) + CommaCount(s[1..])
  }

  predicate NoComma(s: string)
  {
    forall j :: 0 <= j < |s| ==> s[j] != ','
  }

  lemma {:induction false} CommaCountAppend(a: string, b: string)
    ensures CommaCount(a + b) == CommaCount(a) + CommaCount(b)
    decreases |a|
  {
    if a == [] {
      assert a + b == b;
    } else {
      assert (a + b)[1..] == a[1..] + b;
      CommaCountAppend(a[1..], b);
    }
  }

  lemma {:induction false} NoCommaCount(s: string)
    requires NoComma(s)
    ensures CommaCount(s) == 0
    decreases |s|
  {
    if s != [] {
      NoCommaCount(s[1..]);
    }
  }

  /** A non-empty line yields exactly one more field than it has commas. */
  lemma {:induction false} SplitCount(s: string)
    ensures |Split(s)| == CommaCount(s) + 1
    decreases |s|
  {
    var i := FirstIndex(s, ',');
    NoCommaCount(s[..i]);
    if i == |s| {
      assert s[..i] == s;
    } else {
      SplitCount(s[i + 1..]);
      assert s == s[..i] + ([','] + s[i + 1..]);
      CommaCountAppend(s[..i], [','] + s[i + 1..]);
      CommaCountAppend([','], s[i + 1..]);
    }
  }

  /** No field contains the delimiter. */
  lemma {:induction false} SplitNoComma(s: string)
    ensures forall k :: 0 <= k < |Split(s)| ==> NoComma(Split(s)[k])
    decreases |s|
  {
    var i := FirstIndex(s, ',');
    if i < |s| {
      SplitNoComma(s[i + 1..]);
    }
  }

  /** Joining the pieces with commas rebuilds the string. */
  lemma {:induction false} JoinSplit(s: string)
    ensures Join(Split(s)) == s
    decreases |s|
  {
    var i := FirstIndex(s, ',');
    if i < |s| {
      JoinSplit(s[i + 1..]);
      assert s == s[..i] + "," + s[i + 1..];
    }
  }

  /** A comma-free prefix followed by a comma is the first piece. */
  lemma SplitAtComma(a: string, b: string)
    requires NoComma(a)
    ensures Split(a + "," + b) == [a] + Split(b)
  {
    var s := a + "," + b;
    FirstIndexIs(s, ',', |a|);
    assert s[..|a|] == a;
    assert s[|a| + 1..] == b;
  }

  /** Splitting a comma-join of comma-free pieces gives the pieces back. */
  lemma {:induction false} SplitJoin(fs: seq<string>)
    requires |fs| >= 1
    requires forall k :: 0 <= k < |fs| ==> NoComma(fs[k])
    ensures Split(Join(fs)) == fs
    decreases |fs|
  {
    if |fs| == 1 {
      FirstIndexIs(fs[0], ',', |fs[0]|);
    } else {
      assert Join(fs) == fs[0] + "," + Join(fs[1..]);
      SplitAtComma(fs[0], Join(fs[1..]));
      SplitJoin(fs[1..]);
      assert fs == [fs[0]] + fs[1..];
    }
  }

  /** The field count of `parseCSVRow`: zero for the empty line, the number of
      commas plus one otherwise; and the fields, joined with commas, give the line back. */
  lemma FieldsShape(line: string)
    ensures |Fields(line)| == if line == [] then 0 else CommaCount(line) + 1
    ensures forall k :: 0 <= k < |Fields(line)| ==> NoComma(Fields(line)[k])
    ensures line != [] ==> Join(Fields(line)) == line
  {
    if line != [] {
      SplitCount(line);
      SplitNoComma(line);
      JoinSplit(line);
    }
  }

  /** A line that ends in a comma has the empty string as its last field. */
  lemma {:induction false} TrailingCommaGivesEmptyField(line: string)
    requires line != [] && line[|line| - 1] == ','
    ensures |Fields(line)| >= 2 && Fields(line)[|Fields(line)| - 1] == ""
    decreases |line|
  {
    var i := FirstIndex(line, ',');
    assert i < |line|;
    var rest := line[i + 1..];
    if rest == [] {
      assert Split(rest) == [""];
    } else {
      assert rest[|rest| - 1] == ',';
      TrailingCommaGivesEmptyField(rest);
    }
  }

  /** What is left to extract after `pos`: the pieces of the remainder while characters
      remain, and the one empty field the trailing-comma rule adds once they are used up. */
  ghost function Remaining(line: string, pos: nat): seq<string>
    requires pos <= |line|
  {
    if pos < |line| then Split(line[pos..])
    else if pos > 0 && line[pos - 1] == ',' then [""]
    else []
  }

  /** One `getline` call: the cell from `pos` up to the next comma (or the end), after
      which extraction resumes past that comma. */
  lemma RemainingStep(line: string, pos: nat, end: nat)
    requires pos < |line| && pos <= end <= |line|
    requires forall j :: pos <= j < end ==> line[j] != ','
    requires end < |line| ==> line[end] == ','
    ensures Remaining(line, pos) == [line[pos..end]] + Remaining(line, if end < |line| then end + 1 else end)
  {
    var rest := line[pos..];
    FirstIndexIs(rest, ',', end - pos);
    assert rest[..end - pos] == line[pos..end];
    if end < |line| {
      assert rest[end - pos + 1..] == line[end + 1..];
    } else {
      assert line[end - 1] != ',';
      assert rest == line[pos..end];
      assert Split(rest) == [rest];
    }
  }

  /** Before the first `getline` call, all the fields remain. */
  lemma RemainingFromStart(line: string)
    ensures Remaining(line, 0) == Fields(line)
  {
    assert line[0..] == line;
  }

  /** After the last `getline` call, only the trailing-comma field remains. */
  lemma RemainingAtEnd(line: string)
    ensures Remaining(line, |line|) == if line != [] && line[|line| - 1] == ',' then [""] else []
  {
  }

  /** Extracting one cell moves it from what remains to what has been collected. */
  lemma RemainingExtract(line: string, result: seq<string>, pos: nat, end: nat)
    requires pos < |line| && pos <= end <= |line|
    requires forall j :: pos <= j < end ==> line[j] != ','
    requires end < |line| ==> line[end] == ','
    ensures (result + [line[pos..end]]) + Remaining(line, if end < |line| then end + 1 else end)
         == result + Remaining(line, pos)
  {
    RemainingStep(line, pos, end);
  }

  /** Where one `getline(ss, cell, ',')` call stops: the next comma at or after `pos`,
      or the end of the line. */
  method CellEnd(line: string, pos: nat) returns (end: nat)
    requires pos <= |line|
    ensures pos <= end <= |line|
    ensures forall j :: pos <= j < end ==> line[j] != ','
    ensures end < |line| ==> line[end] == ','
  {
    end := pos;
    while end < |line| && line[end] != ','
      invariant pos <= end <= |line|
      invariant forall j :: pos <= j < end ==> line[j] != ','
    {
      end := end + 1;
    }
  }

  /** `parseCSVRow`: repeated `getline(ss, cell, ',')`, which succeeds while
      characters remain and consumes the delimiter it stops at, then one empty
      field when the line ends in a comma. */
  method ParseCSVRow(line: string) returns (result: seq<string>)
    ensures result == Fields(line)
  {
    result := [];
    var pos := 0;
    RemainingFromStart(line);
    while pos < |line|
      invariant pos <= |line|
      invariant result + Remaining(line, pos) == Fields(line)
    {
      var end := CellEnd(line, pos);
      var next := if end < |line| then end + 1 else end;
      RemainingExtract(line, result, pos, end);
      result := result + [line[pos..end]];
      pos := next;
    }
    RemainingAtEnd(line);
    if line != [] && line[|line| - 1] == ',' {
      result := result + [""];
    }
  }

  lemma FieldsExamples()
    ensures Fields("") == []
    ensures Fields("a,") == ["a", ""]
    ensures Fields(",") == ["", ""]
    ensures Fields("a,,b") == ["a", "", "b"]
  {
    assert FirstIndex("a,", ',') == 1;
    assert FirstIndex("", ',') == 0;
    assert FirstIndex(",", ',') == 0;
    assert FirstIndex("a,,b", ',') == 1;
    assert FirstIndex(",b", ',') == 0;
    assert FirstIndex("b", ',') == 1;
    assert "a,"[..1] == "a" && "a,"[2..] == "";
    assert ","[..0] == "" && ","[1..] == "";
    assert "a,,b"[..1] == "a" && "a,,b"[2..] == ",b";
    assert ",b"[..0] == "" && ",b"[1..] == "b";
  }
}
