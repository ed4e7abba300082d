/**
 * The CSV clean-up and the metric default of the Torque log viewer
 * (Ejemplos/main.py): `remove_duplicate_header` drops the header rows that
 * concatenated logs repeat, and an upload picks the metric shown first.
 */
module CsvHeader {
  import opened Wrappers
  import opened Text

  /** Python's `xs[i]` on a list of length `n`: negative indexes count from the end; `None` is an `IndexError`. */
  function PyIndex(n: nat, i: int): (k: Option<nat>)
    ensures k.Some? <==> -(n as int) <= i < n
    ensures k.Some? ==> k.value < n && (k.value == i || k.value == n + i)
  {
    if 0 <= i < n then Some(i)
    else if -(n as int) <= i < 0 then Some(n + i)
    else None
  }

  /** `[line for i, line in enumerate(lines) if line != header and i != headerRow]`. */
  function Kept(lines: seq<string>, header: string, headerRow: int): (kept: seq<string>)
    decreases |lines|
  {
    if lines == [] then []
    else
      var i := |lines| - 1;
      Kept(lines[..i], header, headerRow) + (if lines[i] != header && i != headerRow then [lines[i]] else [])
  }

  /** The lines other than `header`, in their order. */
  function Others(lines: seq<string>, header: string): seq<string>
    decreases |lines|
  {
    if lines == [] then []
    else
      var i := |lines| - 1;
      Others(lines[..i], header) + (if lines[i] != header then [lines[i]] else [])
  }

  /** `Others` drops every copy of the header and keeps every other line as often as it occurs. */
  lemma {:induction false} OthersFilter(lines: seq<string>, header: string)
    ensures header !in Others(lines, header)
    ensures multiset(Others(lines, header)) == multiset(lines)[header := 0]
    decreases |lines|
  {
    if lines != [] {
      var i := |lines| - 1;
      OthersFilter(lines[..i], header);
      assert lines == lines[..i] + [lines[i]];
    }
  }

  /**
   * The index test of the comprehension never drops a line the header
   * test keeps: the line at `headerRow` is the header itself.
   */
  lemma {:induction false} KeptAreOthers(lines: seq<string>, header: string, headerRow: int)
    requires 0 <= headerRow < |lines| ==> lines[headerRow] == header
    ensures Kept(lines, header, headerRow) == Others(lines, header)
    decreases |lines|
  {
    if lines != [] {
      var i := |lines| - 1;
      KeptAreOthers(lines[..i], header, headerRow);
    }
  }

  /** `remove_duplicate_header(content, headerRow)`; `None` when `lines[headerRow]` raises. */
  function RemoveDuplicateHeader(content: string, headerRow: int): (r: Option<string>)
    ensures r.Some? <==> -|Split(content, '\n')| <= headerRow < |Split(content, '\n')|
  {
    var lines := Split(content, '\n');
    var k := PyIndex(|lines|, headerRow);
    if k.None? then None
    else
      var header := lines[k.value];
      Some(Join([header] + Kept(lines, header, headerRow), '\n'))
  }

  /**
   * The lines of the result: the header, then every line of the input that
   * differs from it, in order (so repeated header rows are gone and the
   * line count is one plus the number of other lines).
   */
  lemma ResultLines(content: string, headerRow: int)
    requires RemoveDuplicateHeader(content, headerRow).Some?
    ensures var lines := Split(content, '\n');
      var header := lines[PyIndex(|lines|, headerRow).value];
      Split(RemoveDuplicateHeader(content, headerRow).value, '\n') == [header] + Others(lines, header)
  {
    var lines := Split(content, '\n');
    var k := PyIndex(|lines|, headerRow).value;
    var header := lines[k];
    KeptAreOthers(lines, header, headerRow);
    OthersFilter(lines, header);
    var out := [header] + Others(lines, header);
    forall j | 0 <= j < |out| ensures '\n' !in out[j] {
      if j > 0 {
        assert out[j] in multiset(Others(lines, header));
        assert out[j] in lines;
      }
    }
    SplitJoin(out, '\n');
  }

  /** The first line of the result is the header row; no later line equals it. */
  lemma HeaderOnce(content: string, headerRow: int)
    requires RemoveDuplicateHeader(content, headerRow).Some?
    ensures var lines := Split(content, '\n');
      var header := lines[PyIndex(|lines|, headerRow).value];
      var out := Split(RemoveDuplicateHeader(content, headerRow).value, '\n');
      out[0] == header && forall j :: 1 <= j < |out| ==> out[j] != header
  {
    ResultLines(content, headerRow);
    var lines := Split(content, '\n');
    var header := lines[PyIndex(|lines|, headerRow).value];
    OthersFilter(lines, header);
    HeadThenAbsent(Split(RemoveDuplicateHeader(content, headerRow).value, '\n'), header, Others(lines, header));
  }

  lemma HeadThenAbsent(out: seq<string>, header: string, rest: seq<string>)
    requires out == [header] + rest && header !in rest
    ensures out[0] == header && forall j :: 1 <= j < |out| ==> out[j] != header
  {
    forall j | 1 <= j < |out| ensures out[j] != header {
      assert out[j] == rest[j - 1];
    }
  }

  /** With the default header row the function always succeeds, and empty content stays empty. */
  lemma DefaultRowTotal(content: string)
    ensures RemoveDuplicateHeader(content, 0).Some?
    ensures content == "" ==> RemoveDuplicateHeader(content, 0) == Some("")
  {
  }

  /** Removing the duplicate headers twice (header row 0) is the same as once. */
  lemma Idempotent(content: string)
    ensures RemoveDuplicateHeader(RemoveDuplicateHeader(content, 0).value, 0) == RemoveDuplicateHeader(content, 0)
  {
    var lines := Split(content, '\n');
    var header := lines[0];
    var once := RemoveDuplicateHeader(content, 0).value;
    ResultLines(content, 0);
    OthersFilter(lines, header);
    var out := Split(once, '\n');
    assert out == [header] + Others(lines, header);
    KeptAreOthers(out, header, 0);
    OthersAfterHeader(Others(lines, header), header);
    assert Others(out, header) == Others(lines, header);
    JoinSplit(once, '\n');
  }

  /** Filtering the header out of the header followed by lines without it leaves those lines. */
  lemma {:induction false} OthersAfterHeader(rest: seq<string>, header: string)
    requires header !in rest
    ensures Others([header] + rest, header) == rest
    decreases |rest|
  {
    if rest == [] {
      assert [header] + rest == [header];
      assert [header][..0] == [];
    } else {
      var i := |rest| - 1;
      assert ([header] + rest)[..|rest|] == [header] + rest[..i];
      OthersAfterHeader(rest[..i], header);
      assert rest == rest[..i] + [rest[i]];
    }
  }

  const GpsSpeed := "GPS Speed (km/h)"

  /**
   * Lines 107-111: when the upload triggered the callback and there are
   * numeric columns, the metric becomes the GPS speed if it is one of
   * them, else the first of them; otherwise the selection stays.
   */
  function DefaultMetric(triggeredBy: string, validColumns: seq<string>, selected: Option<string>): (metric: Option<string>)
    ensures Contains(triggeredBy, "upload-data") && validColumns != [] ==>
      metric.Some? && metric.value in validColumns
      && (metric.value == GpsSpeed <==> GpsSpeed in validColumns)
      && (GpsSpeed !in validColumns ==> metric.value == validColumns[0])
    ensures !(Contains(triggeredBy, "upload-data") && validColumns != []) ==> metric == selected
  {
    if Contains(triggeredBy, "upload-data") && validColumns != [] then
      if GpsSpeed in validColumns then Some(GpsSpeed) else Some(validColumns[0])
    else selected
  }
}
