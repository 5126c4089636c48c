// The label editor's text form: one `key=value` per line.
module LabelsText {
  import opened Text

  datatype LineError = ExpectedKeyValue | EmptyKey | KeyTooLong | ValueTooLong

  datatype Line = Skipped | Entry(key: string, value: string) | Bad(error: LineError)

  datatype ParseResult = Labels(labels: map<string, string>) | Error(line: nat, error: LineError)

  /** Position of the first '=', or -1. */
  function IndexOfEquals(s: string): (r: int)
    ensures -1 <= r < |s|
    ensures r >= 0 ==> s[r] == '=' && '=' !in s[..r]
    ensures r == -1 ==> '=' !in s
  {
    if s == "" then -1
    else if s[0] == '=' then 0
    else
      var r := IndexOfEquals(s[1..]);
      if r < 0 then -1
      else
        assert s[..r + 1] == [s[0]] + s[1..][..r];
        r + 1
  }

  function ParseLine(line: string): Line {
    var raw := Trim(line, JsSpace);
    if raw == "" || raw[0] == '#' then Skipped
    else
      var eq := IndexOfEquals(raw);
      if eq <= 0 then Bad(ExpectedKeyValue)
      else
        var key, value := Trim(raw[..eq], JsSpace), raw[eq + 1..];
        if key == "" then Bad(EmptyKey)
        else if |key| > 253 then Bad(KeyTooLong)
        else if |value| > 63 then Bad(ValueTooLong)
        else Entry(key, value)
  }

  /** Lines in order; the first bad one ends it, and a repeated key is overwritten. */
  function ParseLines(lines: seq<string>): ParseResult {
    if lines == [] then Labels(map[])
    else
      match ParseLines(lines[..|lines| - 1])
      case Error(n, e) => Error(n, e)
      case Labels(m) =>
        match ParseLine(lines[|lines| - 1])
        case Skipped => Labels(m)
        case Entry(k, v) => Labels(m[k := v])
        case Bad(e) => Error(|lines|, e)
  }

  lemma {:induction false} ErrorStays(lines: seq<string>, i: nat)
    requires i <= |lines| && ParseLines(lines[..i]).Error?
    ensures ParseLines(lines) == ParseLines(lines[..i])
  {
    if i == |lines| {
      assert lines[..i] == lines;
    } else {
      var front := lines[..|lines| - 1];
      assert front[..i] == lines[..i];
      ErrorStays(front, i);
    }
  }

  lemma SkippedLines(line: string)
    ensures var raw := Trim(line, JsSpace);
            ParseLine(line) == Skipped <==> raw == "" || raw[0] == '#'
  {
    hide Trim;
  }

  method ParseLabelsText(text: string) returns (r: ParseResult)
    ensures r == ParseLines(Split(text, '\n'))
  {
    hide Trim, ParseLine, Split;
    var labels: map<string, string> := map[];
    var lines := Split(text, '\n');
    for i := 0 to |lines|
      invariant ParseLines(lines[..i]) == Labels(labels)
    {
      assert lines[..i + 1][..i] == lines[..i];
      var raw := Trim(lines[i], JsSpace);
      SkippedLines(lines[i]);
      if raw == "" || raw[0] == '#' {
        continue;
      }
      var line := ParseLine(lines[i]);
      if line.Bad? {
        ErrorStays(lines, i + 1);
        return Error(i + 1, line.error);
      }
      labels := labels[line.key := line.value];
    }
    assert lines[..|lines|] == lines;
    return Labels(labels);
  }

  // ---------------------------------------------------------------- printing

  /** The lines in a given key order; the printer's locale order is one of them. */
  function Lines(labels: map<string, string>, order: seq<string>): seq<string>
    requires forall k :: k in order ==> k in labels
  {
    seq(|order|, i requires 0 <= i < |order| => order[i] + "=" + labels[order[i]])
  }

  function FormatLabelsText(labels: map<string, string>, order: seq<string>): string
    requires forall k :: k in order ==> k in labels
  {
    Join(Lines(labels, order), '\n')
  }

  /** An order of the map's entries. */
  ghost predicate Orders(labels: map<string, string>, order: seq<string>) {
    && (forall k :: k in order <==> k in labels)
    && (forall i, j :: 0 <= i < j < |order| ==> order[i] != order[j])
  }

  // ---------------------------------------------------------------- what survives

  predicate GoodEntry(key: string, value: string) {
    && key != "" && Trimmed(key, JsSpace) && key[0] != '#' && '=' !in key && '\n' !in key && |key| <= 253
    && '\n' !in value && |value| <= 63 && (value != "" ==> !JsSpace(value[|value| - 1]))
  }

  predicate Good(labels: map<string, string>) {
    forall k :: k in labels ==> GoodEntry(k, labels[k])
  }

  lemma TrimPart(raw: string, eq: nat)
    requires raw != "" && Trimmed(raw, JsSpace) && 0 < eq <= |raw|
    ensures var key := Trim(raw[..eq], JsSpace);
            key != "" && key[0] == raw[0] && Trimmed(key, JsSpace) && forall c :: c in key ==> c in raw[..eq]
  {
    var part := raw[..eq];
    TrimShape(part, JsSpace);
    assert TrimLeft(part, JsSpace) == part;
    TrimRightShape(part, JsSpace);
    var key := TrimRight(part, JsSpace);
    TrimRightKeepsHead(part);
    assert key[0] == part[0];
  }

  lemma {:induction false} TrimRightKeepsHead(s: string)
    requires s != "" && !JsSpace(s[0])
    ensures TrimRight(s, JsSpace) != ""
  {
    hide JsSpace;
    if JsSpace(s[|s| - 1]) {
      TrimRightKeepsHead(s[..|s| - 1]);
    }
  }

  /** Whatever a line is parsed to prints as a line that parses to the same. */
  lemma ParsedEntryIsGood(line: string)
    requires '\n' !in line && ParseLine(line).Entry?
    ensures GoodEntry(ParseLine(line).key, ParseLine(line).value)
  {
    var raw := Trim(line, JsSpace);
    TrimShape(line, JsSpace);
    var eq := IndexOfEquals(raw);
    TrimPart(raw, eq);
    hide JsSpace, Trim;
    var value := raw[eq + 1..];
    assert forall c :: c in value ==> c in raw;
    assert forall c :: c in raw[..eq] ==> c in raw;
    if value != "" {
      assert value[|value| - 1] == raw[|raw| - 1];
    }
  }

  lemma {:induction false} ParsedIsGood(lines: seq<string>)
    requires forall l :: l in lines ==> '\n' !in l
    requires ParseLines(lines).Labels?
    ensures Good(ParseLines(lines).labels)
  {
    if lines != [] {
      var k := |lines| - 1;
      assert forall l :: l in lines[..k] ==> l in lines;
      ParsedIsGood(lines[..k]);
      if ParseLine(lines[k]).Entry? {
        ParsedEntryIsGood(lines[k]);
      }
      hide ParseLine, GoodEntry;
    }
  }

  lemma InPrefix(s: string, i: int, n: int)
    ensures 0 <= i < n <= |s| && s[i] == '=' ==> '=' in s[..n]
  {
    if 0 <= i < n <= |s| && s[i] == '=' {
      assert s[..n][i] == '=';
    }
  }

  lemma FirstEqualsAt(key: string, value: string)
    requires '=' !in key
    ensures IndexOfEquals(key + "=" + value) == |key|
  {
    var line := key + "=" + value;
    var eq := IndexOfEquals(line);
    assert line[|key|] == '=' && '=' in line && line[..|key|] == key;
    InPrefix(line, eq, |key|);
    InPrefix(line, |key|, eq);
    hide IndexOfEquals;
  }

  lemma GoodLineParses(key: string, value: string)
    requires GoodEntry(key, value)
    ensures ParseLine(key + "=" + value) == Entry(key, value)
    ensures '\n' !in key + "=" + value
  {
    var line := key + "=" + value;
    assert !JsSpace('=');
    assert line[0] == key[0];
    assert line[|line| - 1] == if value == "" then '=' else value[|value| - 1];
    TrimOfTrimmed(line, JsSpace);
    TrimOfTrimmed(key, JsSpace);
    FirstEqualsAt(key, value);
    hide JsSpace, Trim, IndexOfEquals;
    assert line[..|key|] == key && line[|key| + 1..] == value;
  }

  lemma {:induction false} PrintedParses(labels: map<string, string>, order: seq<string>)
    requires Good(labels) && forall k :: k in order ==> k in labels
    requires forall i, j :: 0 <= i < j < |order| ==> order[i] != order[j]
    ensures ParseLines(Lines(labels, order)) == Labels(map k | k in labels && k in order :: labels[k])
    ensures forall l :: l in Lines(labels, order) ==> '\n' !in l
  {
    if order != [] {
      var k := |order| - 1;
      var front := order[..k];
      assert order == front + [order[k]];
      GoodLineParses(order[k], labels[order[k]]);
      hide ParseLine, GoodEntry;
      assert forall i :: 0 <= i < k ==> front[i] == order[i];
      PrintedParses(labels, front);
      var lines := Lines(labels, order);
      assert lines[..k] == Lines(labels, front);
      assert lines == lines[..k] + [lines[k]];
      MapStep(labels, front, order[k]);
    }
  }

  lemma MapStep(labels: map<string, string>, front: seq<string>, next: string)
    requires next in labels
    ensures (map x | x in labels && x in front :: labels[x])[next := labels[next]]
         == map x | x in labels && x in front + [next] :: labels[x]
  {
  }

  /** Printing in any order and parsing again gives the labels back. */
  lemma GoodRoundTrip(labels: map<string, string>, order: seq<string>)
    requires Good(labels) && Orders(labels, order)
    ensures ParseLines(Split(FormatLabelsText(labels, order), '\n')) == Labels(labels)
  {
    PrintedParses(labels, order);
    hide ParseLine, GoodEntry;
    var lines := Lines(labels, order);
    assert labels == map k | k in labels && k in order :: labels[k];
    if order == [] {
      assert FormatLabelsText(labels, order) == "";
      EmptyTextParses();
    } else {
      SplitJoin(lines, '\n');
    }
  }

  lemma EmptyTextParses()
    ensures ParseLines(Split("", '\n')) == Labels(map[])
  {
    var lines := Split("", '\n');
    assert lines == [""] && lines[..0] == [];
    assert ParseLine("") == Skipped;
  }

  /** For every text the parser accepts, formatting in any order and parsing again is the identity. */
  lemma RoundTrip(text: string, order: seq<string>)
    requires ParseLines(Split(text, '\n')).Labels?
    requires Orders(ParseLines(Split(text, '\n')).labels, order)
    ensures var labels := ParseLines(Split(text, '\n')).labels;
            ParseLines(Split(FormatLabelsText(labels, order), '\n')) == Labels(labels)
  {
    SplitPieces(text, '\n');
    ParsedIsGood(Split(text, '\n'));
    GoodRoundTrip(ParseLines(Split(text, '\n')).labels, order);
  }

  /** And the labels that survive the text form are exactly the good ones. */
  lemma RoundTripExactly(labels: map<string, string>, order: seq<string>)
    requires Orders(labels, order)
    ensures ParseLines(Split(FormatLabelsText(labels, order), '\n')) == Labels(labels) <==> Good(labels)
  {
    if Good(labels) {
      GoodRoundTrip(labels, order);
    }
    var text := FormatLabelsText(labels, order);
    SplitPieces(text, '\n');
    if ParseLines(Split(text, '\n')).Labels? {
      ParsedIsGood(Split(text, '\n'));
    }
  }
}
