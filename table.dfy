/**
 * The shared shape of both reference-table loaders: the file text is split into lines, the
 * first line (the header) is skipped, every other line is split at commas, and lines with too
 * few fields are dropped; the surviving rows keep file order.
 */
module Table {
  import opened Strings

  /** The field lists of `lines` that have at least `minFields` fields, in order. */
  function RowsOf(lines: seq<string>, minFields: nat): (rows: seq<seq<string>>)
    ensures forall i :: 0 <= i < |rows| ==> |rows[i]| >= minFields
    ensures |rows| <= |lines|
  {
    if |lines| == 0 then []
    else
      var fields := Split(lines[0], ',');
      (if |fields| >= minFields then [fields] else []) + RowsOf(lines[1..], minFields)
  }

  /** The data rows of a table file: every line but the first, split at commas, short ones dropped. */
  function DataRows(text: string, minFields: nat): seq<seq<string>>
  {
    RowsOf(Split(text, '\n')[1..], minFields)
  }

  /** Row parsing is line by line: concatenated line lists give concatenated rows (file order). */
  lemma {:induction false} RowsOfAppend(a: seq<string>, b: seq<string>, minFields: nat)
    ensures RowsOf(a + b, minFields) == RowsOf(a, minFields) + RowsOf(b, minFields)
    decreases |a|
  {
    if |a| > 0 {
      assert (a + b)[0] == a[0];
      assert (a + b)[1..] == a[1..] + b;
      RowsOfAppend(a[1..], b, minFields);
    } else {
      assert a + b == b;
    }
  }

  /** One line yields its fields when it has enough of them, and nothing otherwise. */
  lemma RowsOfSingle(line: string, minFields: nat)
    ensures RowsOf([line], minFields)
         == if |Split(line, ',')| >= minFields then [Split(line, ',')] else []
  {
    assert [line][1..] == [];
  }

  /** A row is produced exactly when some line has at least `minFields` fields. */
  lemma {:induction false} RowsOfMembers(lines: seq<string>, minFields: nat, row: seq<string>)
    ensures row in RowsOf(lines, minFields)
        <==> exists i :: 0 <= i < |lines| && Split(lines[i], ',') == row && |row| >= minFields
    decreases |lines|
  {
    if |lines| > 0 {
      RowsOfMembers(lines[1..], minFields, row);
      if row in RowsOf(lines[1..], minFields) {
        var i :| 0 <= i < |lines[1..]| && Split(lines[1..][i], ',') == row && |row| >= minFields;
        assert lines[i + 1] == lines[1..][i];
      }
      if exists i :: 0 <= i < |lines| && Split(lines[i], ',') == row && |row| >= minFields {
        var i :| 0 <= i < |lines| && Split(lines[i], ',') == row && |row| >= minFields;
        if i > 0 {
          assert lines[1..][i - 1] == lines[i];
        }
      }
    }
  }

  /** The header line never contributes, whatever it holds. */
  lemma HeaderSkipped(header: string, body: string, minFields: nat)
    requires '\n' !in header
    ensures DataRows(header + "\n" + body, minFields) == RowsOf(Split(body, '\n'), minFields)
  {
    SplitAtFirst(header, '\n', body);
    assert header + "\n" + body == header + ['\n'] + body;
  }
}
