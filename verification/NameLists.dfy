// Lists of quoted names, and reading them back out of a text.

module NameLists {
  import opened Wrappers
  import opened Scanner
  import opened Quoting

  function QuotedList(names: seq<string>, q: char, sep: string): string {
    if names == [] then ""
    else Quoted(names[0], q) + (if |names| > 1 then sep else "") + QuotedList(names[1..], q, sep)
  }

  predicate StartsWith(text: string, prefix: string) {
    |prefix| <= |text| && text[..|prefix|] == prefix
  }

  // The quoted names at the start of a text, and what follows the last of them.
  function ReadNames(text: string, q: char, sep: string): (r: (seq<string>, string))
    requires text != "" && text[0] == q
    ensures |r.1| < |text|
    decreases |text|
  {
    var e := QuotedEnd(text, 1, q);
    var name := if e < 2 then "" else Undoubled(text[1..e - 1], q);
    var rest := text[e..];
    if StartsWith(rest, sep + [q]) then
      var (more, end) := ReadNames(rest[|sep|..], q, sep);
      ([name] + more, end)
    else ([name], rest)
  }

  lemma NameReadsBack(name: string, q: char, rest: string)
    requires rest == "" || rest[0] != q
    ensures var text := Quoted(name, q) + rest;
            var e := QuotedEnd(text, 1, q);
            e == |Quoted(name, q)| >= 2 && Undoubled(text[1..e - 1], q) == name && text[e..] == rest
  {
    var own := Quoted(name, q);
    var text := own + rest;
    assert text == [q] + Doubled(name, q) + [q] + rest;
    ScanStopsAtClosingQuote([q], name, q, rest);
    assert text[1..|own| - 1] == Doubled(name, q);
    UndoublingInverts(name, q);
  }

  // A list read out of a text is the list written into it, whatever the names hold.
  lemma {:induction false} ListReadsBack(names: seq<string>, q: char, sep: string, after: string)
    requires names != [] && sep != "" && sep[0] != q
    requires (after == "" || after[0] != q) && !StartsWith(after, sep + [q])
    ensures var text := QuotedList(names, q, sep) + after;
            text != "" && text[0] == q && ReadNames(text, q, sep) == (names, after)
    decreases |names|
  {
    hide *;
    QuoteFirst(names[0], q);
    ListSplit(names, q, sep, after);
    if |names| > 1 {
      var tail := QuotedList(names[1..], q, sep) + after;
      ListReadsBack(names[1..], q, sep, after);
      SepFirst(sep, tail);
      NameReadsBack(names[0], q, sep + tail);
      ReadOne(names[0], q, sep, tail, names[1..], after);
      assert names == [names[0]] + names[1..];
    } else {
      NameReadsBack(names[0], q, after);
      ReadLast(names[0], q, sep, after);
      assert names == [names[0]];
    }
  }

  lemma ListSplit(names: seq<string>, q: char, sep: string, after: string)
    requires names != []
    ensures QuotedList(names, q, sep) + after ==
            Quoted(names[0], q) + (if |names| > 1 then sep + (QuotedList(names[1..], q, sep) + after) else after)
  {
    hide Quoted;
    if |names| == 1 {
      assert names[1..] == [];
    }
  }

  lemma ReadOne(name: string, q: char, sep: string, tail: string, more: seq<string>, end: string)
    requires sep != "" && sep[0] != q && tail != "" && tail[0] == q && ReadNames(tail, q, sep) == (more, end)
    requires var text := Quoted(name, q) + (sep + tail);
             var e := QuotedEnd(text, 1, q);
             e == |Quoted(name, q)| >= 2 && Undoubled(text[1..e - 1], q) == name && text[e..] == sep + tail
    ensures var text := Quoted(name, q) + (sep + tail);
            text != "" && text[0] == q && ReadNames(text, q, sep) == ([name] + more, end)
  {
    QuoteFirst(name, q);
    hide Quoted, QuotedEnd, Undoubled;
    var rest := sep + tail;
    assert rest[..|sep| + 1] == sep + [q] && rest[|sep|..] == tail;
  }

  lemma ReadLast(name: string, q: char, sep: string, after: string)
    requires !StartsWith(after, sep + [q])
    requires var text := Quoted(name, q) + after;
             var e := QuotedEnd(text, 1, q);
             e == |Quoted(name, q)| >= 2 && Undoubled(text[1..e - 1], q) == name && text[e..] == after
    ensures var text := Quoted(name, q) + after;
            text != "" && text[0] == q && ReadNames(text, q, sep) == ([name], after)
  {
    QuoteFirst(name, q);
    hide Quoted, QuotedEnd, Undoubled;
  }

  lemma SepFirst(sep: string, tail: string)
    requires sep != ""
    ensures sep + tail != "" && (sep + tail)[0] == sep[0]
  {
  }

  lemma QuoteFirst(name: string, q: char)
    ensures Quoted(name, q) != "" && Quoted(name, q)[0] == q
  {
  }

  // ----- columns, each of them a name in dotted parts

  function QuotedColumns(columns: seq<seq<string>>, q: char): string {
    if columns == [] then ""
    else QuotedList(columns[0], q, ".") + (if |columns| > 1 then ", " else "") + QuotedColumns(columns[1..], q)
  }

  // The columns at the start of a text, and what follows the last of them.
  function ReadColumns(text: string, q: char): (r: (seq<seq<string>>, string))
    requires text != "" && text[0] == q
    decreases |text|
  {
    var (column, rest) := ReadNames(text, q, ".");
    if StartsWith(rest, ", " + [q]) then
      var (more, end) := ReadColumns(rest[2..], q);
      ([column] + more, end)
    else ([column], rest)
  }

  predicate Dotted(columns: seq<seq<string>>) {
    columns != [] && forall k :: 0 <= k < |columns| ==> columns[k] != []
  }

  predicate Apart(q: char, after: string) {
    after == "" || (after[0] != q && after[0] != '.' && after[0] != ',')
  }

  // Columns read out of a text are the columns written into it, part by part.
  lemma {:induction false} ColumnsReadBack(columns: seq<seq<string>>, q: char, after: string)
    requires Dotted(columns) && q != '.' && q != ',' && Apart(q, after)
    ensures var text := QuotedColumns(columns, q) + after;
            text != "" && text[0] == q && ReadColumns(text, q) == (columns, after)
    decreases |columns|
  {
    hide QuotedColumns, ReadColumns, QuotedList, ReadNames;
    ColumnsSplit(columns, q, after);
    if |columns| > 1 {
      var tail := QuotedColumns(columns[1..], q) + after;
      ColumnsReadBack(columns[1..], q, after);
      ListReadsBack(columns[0], q, ".", ", " + tail);
      ReadOneColumn(QuotedList(columns[0], q, "."), q, columns[0], tail, columns[1..], after);
      assert columns == [columns[0]] + columns[1..];
    } else {
      ListReadsBack(columns[0], q, ".", after);
      ReadLastColumn(QuotedList(columns[0], q, "."), q, columns[0], after);
      assert columns == [columns[0]];
    }
  }

  lemma ColumnsSplit(columns: seq<seq<string>>, q: char, after: string)
    requires columns != []
    ensures QuotedColumns(columns, q) + after ==
            QuotedList(columns[0], q, ".")
            + (if |columns| > 1 then ", " + (QuotedColumns(columns[1..], q) + after) else after)
  {
    hide QuotedList;
    var sep := if |columns| > 1 then ", " else "";
    var first, rest := QuotedList(columns[0], q, "."), QuotedColumns(columns[1..], q);
    assert first + sep + rest + after == first + (sep + (rest + after));
    if |columns| == 1 {
      assert columns[1..] == [];
    }
  }

  lemma ReadOneColumn(first: string, q: char, column: seq<string>, tail: string, more: seq<seq<string>>, end: string)
    requires var text := first + (", " + tail);
             text != "" && text[0] == q && ReadNames(text, q, ".") == (column, ", " + tail)
    requires tail != "" && tail[0] == q && ReadColumns(tail, q) == (more, end)
    ensures ReadColumns(first + (", " + tail), q) == ([column] + more, end)
  {
    hide ReadNames;
    var rest := ", " + tail;
    assert rest[..3] == ", " + [q] && rest[2..] == tail;
  }

  lemma ReadLastColumn(first: string, q: char, column: seq<string>, after: string)
    requires var text := first + after; text != "" && text[0] == q && ReadNames(text, q, ".") == (column, after)
    requires Apart(q, after)
    ensures ReadColumns(first + after, q) == ([column], after)
  {
    hide ReadNames;
  }

  // ----- the head of an INSERT

  datatype Head = Head(table: seq<string>, columns: seq<seq<string>>, rest: string)

  // The table and the columns an INSERT names, and what follows VALUES.
  function ReadInsert(text: string, q: char): Option<Head> {
    if !StartsWith(text, "INSERT INTO " + [q]) then None
    else
      var (table, after) := ReadNames(text[12..], q, ".");
      if !StartsWith(after, " (" + [q]) then None
      else
        var (columns, rest) := ReadColumns(after[2..], q);
        if !StartsWith(rest, ") VALUES ") then None else Some(Head(table, columns, rest[9..]))
  }

  // The columns a RETURNING clause names.
  function ReadReturning(text: string, q: char): Option<seq<seq<string>>> {
    if !StartsWith(text, " RETURNING " + [q]) then None
    else
      var (columns, rest) := ReadColumns(text[11..], q);
      if rest != "" then None else Some(columns)
  }

  // A byte that can stand at the start of a name and at no other place of a head.
  predicate QuoteByte(q: char) {
    q != '.' && q != ',' && q != ' ' && q != ')'
  }

  lemma InsertHeadReadsBack(table: seq<string>, columns: seq<seq<string>>, q: char, rest: string)
    requires table != [] && Dotted(columns) && QuoteByte(q)
    ensures ReadInsert("INSERT INTO " + (QuotedList(table, q, ".") + (" (" + (QuotedColumns(columns, q)
                       + (") VALUES " + rest)))), q) ==
            Some(Head(table, columns, rest))
  {
    hide QuotedList, QuotedColumns, ReadNames, ReadColumns;
    var c := ") VALUES " + rest;
    var columnsOn := QuotedColumns(columns, q) + c;
    var b := " (" + columnsOn;
    var tableOn := QuotedList(table, q, ".") + b;
    ColumnsReadBack(columns, q, c);
    ListReadsBack(table, q, ".", b);
    Starts("INSERT INTO ", tableOn, q);
    Starts(" (", columnsOn, q);
    assert c[..9] == ") VALUES " && c[9..] == rest;
  }

  lemma Starts(word: string, rest: string, q: char)
    requires rest != "" && rest[0] == q
    ensures StartsWith(word + rest, word + [q]) && (word + rest)[|word|..] == rest
  {
    assert (word + rest)[..|word| + 1] == word + [q];
  }

  lemma ReturningReadsBack(columns: seq<seq<string>>, q: char)
    requires Dotted(columns) && QuoteByte(q)
    ensures ReadReturning(" RETURNING " + QuotedColumns(columns, q), q) == Some(columns)
  {
    hide QuotedColumns, ReadColumns;
    ColumnsReadBack(columns, q, "");
    assert QuotedColumns(columns, q) + "" == QuotedColumns(columns, q);
    Starts(" RETURNING ", QuotedColumns(columns, q), q);
  }
}
