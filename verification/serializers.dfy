/**
 * The subscriber-import serializers of core/serializers.py:
 * `BulkAddEmailSerializer` (validate an uploaded CSV file of addresses, then
 * create the new addresses and their memberships of a mail list) and
 * `EmailMailListSerializer` (add one existing address to a list the requester
 * owns).
 *
 * An uploaded file is an `Upload` object: a stream whose `read()` returns
 * what is left of it and leaves it at its end.  Its content is given as the
 * rows `csv.reader` would produce from it, and whether it decodes as UTF-8.
 */
module Serializers {
  import opened Wrappers
  import opened Models

  type Row = seq<string>

  /** The content of an uploaded file. */
  datatype Payload = Payload(utf8: bool, rows: seq<Row>)

  /**
   * What `read()` returns once the stream is at its end.  As a file's whole
   * payload it is the 0-byte file: any other content has at least one line,
   * or does not decode.
   */
  const EmptyPayload := Payload(true, [])

  /** An uploaded file. */
  class Upload {
    const name: string
    const payload: Payload
    var consumed: bool  // the stream has been read to its end

    function Remaining(): Payload
      reads this
    {
      if consumed then EmptyPayload else payload
    }

    constructor (name: string, payload: Payload)
      ensures this.name == name && this.payload == payload && !consumed
    {
      this.name := name;
      this.payload := payload;
      consumed := false;
    }

    /** `read()`: the rest of the stream. */
    method Read() returns (p: Payload)
      modifies this
      ensures p == old(Remaining()) && consumed
    {
      p := Remaining();
      consumed := true;
    }

    /** `seek(0)`: the whole payload can be read again. */
    method Rewind()
      modifies this
      ensures !consumed && Remaining() == payload
    {
      consumed := false;
    }
  }

  // ---------------------------------------------------------------------
  // String rules
  // ---------------------------------------------------------------------

  /** The characters Python's `str.isspace()` accepts, which `str.strip()` removes. */
  predicate IsSpace(ch: char)
    ensures ch == ' ' || ch == '\t' || ch == '\n' || ch == '\r' ==> IsSpace(ch)
    ensures IsSpace(ch) ==> ch != '@'
  {
    var n := ch as int;
    || n == 0x20 || 0x09 <= n <= 0x0D || 0x1C <= n <= 0x1F || n == 0x85 || n == 0xA0
    || n == 0x1680 || 0x2000 <= n <= 0x200A || n == 0x2028 || n == 0x2029
    || n == 0x202F || n == 0x205F || n == 0x3000
  }

  /** `s` without its leading whitespace. */
  function TrimLeft(s: string): (r: string)
    ensures |r| <= |s|
    decreases |s|
  {
    if s != [] && IsSpace(s[0]) then TrimLeft(s[1..]) else s
  }

  /** `s` without its trailing whitespace. */
  function TrimRight(s: string): (r: string)
    ensures |r| <= |s|
    decreases |s|
  {
    if s != [] && IsSpace(s[|s| - 1]) then TrimRight(s[..|s| - 1]) else s
  }

  /** TrimLeft keeps a suffix of `s`. */
  lemma {:induction false} TrimLeftIsSuffix(s: string)
    ensures TrimLeft(s) == s[|s| - |TrimLeft(s)|..]
    decreases |s|
  {
    if s != [] && IsSpace(s[0]) {
      TrimLeftIsSuffix(s[1..]);
      assert s[1..][|s| - 1 - |TrimLeft(s)|..] == s[|s| - |TrimLeft(s)|..];
    }
  }

  /** What TrimLeft drops is whitespace, and what it keeps does not start with any. */
  lemma {:induction false} TrimLeftDropsSpaces(s: string)
    ensures var r := TrimLeft(s);
            && (forall i {:trigger IsSpace(s[i])} :: 0 <= i < |s| - |r| ==> IsSpace(s[i]))
            && (r == [] || !IsSpace(r[0]))
    decreases |s|
  {
    if s != [] && IsSpace(s[0]) {
      TrimLeftDropsSpaces(s[1..]);
      forall i | 1 <= i < |s| - |TrimLeft(s)|
        ensures IsSpace(s[i])
      {
        assert s[i] == s[1..][i - 1];
      }
    }
  }

  /** TrimRight keeps a prefix of `s`. */
  lemma {:induction false} TrimRightIsPrefix(s: string)
    ensures var r := TrimRight(s); forall i :: 0 <= i < |r| ==> r[i] == s[i]
    decreases |s|
  {
    if s != [] && IsSpace(s[|s| - 1]) {
      TrimRightIsPrefix(s[..|s| - 1]);
    }
  }

  /** What TrimRight drops is whitespace, and what it keeps does not end with any. */
  lemma {:induction false} TrimRightDropsSpaces(s: string)
    ensures var r := TrimRight(s);
            && (forall i {:trigger IsSpace(s[i])} :: |r| <= i < |s| ==> IsSpace(s[i]))
            && (r == [] || !IsSpace(r[|r| - 1]))
    decreases |s|
  {
    if s != [] && IsSpace(s[|s| - 1]) {
      var init := s[..|s| - 1];
      TrimRightDropsSpaces(init);
      forall i | |TrimRight(s)| <= i < |s| - 1
        ensures IsSpace(s[i])
      {
        assert s[i] == init[i];
      }
    }
  }

  /** `s.strip()`: `s` without its leading and trailing whitespace. */
  function Strip(s: string): (r: string)
    ensures |r| <= |s|
  {
    TrimRight(TrimLeft(s))
  }

  /** Strip keeps the stretch of `s` that follows its leading whitespace. */
  lemma StripIsInfix(s: string)
    ensures var r := Strip(s);
            var i := |s| - |TrimLeft(s)|;
            && i + |r| <= |s|
            && forall k :: 0 <= k < |r| ==> r[k] == s[i + k]
  {
    var left := TrimLeft(s);
    TrimLeftIsSuffix(s);
    TrimRightIsPrefix(left);
    var i := |s| - |left|;
    var r := TrimRight(left);
    forall k | 0 <= k < |r|
      ensures r[k] == s[i + k]
    {
      assert r[k] == left[k];
    }
  }

  /** What Strip removes around that stretch is whitespace. */
  lemma StripRemovesOnlySpaces(s: string)
    ensures var i := |s| - |TrimLeft(s)|;
            && (forall k {:trigger IsSpace(s[k])} :: 0 <= k < i ==> IsSpace(s[k]))
            && (forall k {:trigger IsSpace(s[k])} :: i + |Strip(s)| <= k < |s| ==> IsSpace(s[k]))
  {
    var left := TrimLeft(s);
    TrimLeftDropsSpaces(s);
    TrimLeftIsSuffix(s);
    TrimRightDropsSpaces(left);
    var i := |s| - |left|;
    forall k | i + |TrimRight(left)| <= k < |s|
      ensures IsSpace(s[k])
    {
      assert s[k] == left[k - i];
      assert IsSpace(left[k - i]);
    }
  }

  /** The stretch Strip keeps neither starts nor ends with whitespace. */
  lemma StripEndsWithoutSpace(s: string)
    ensures var r := Strip(s);
            r == [] || (!IsSpace(r[0]) && !IsSpace(r[|r| - 1]))
  {
    var left := TrimLeft(s);
    TrimLeftDropsSpaces(s);
    TrimRightDropsSpaces(left);
    TrimRightIsPrefix(left);
    var r := TrimRight(left);
    if r != [] {
      assert r[0] == left[0];
    }
  }

  /** An "@" of `s` is not whitespace, so Strip keeps it. */
  lemma AtSurvivesStrip(s: string)
    ensures '@' in s ==> '@' in Strip(s)
  {
    if '@' in s {
      StripIsInfix(s);
      StripRemovesOnlySpaces(s);
      var i := |s| - |TrimLeft(s)|;
      var k :| 0 <= k < |s| && s[k] == '@';
      assert !IsSpace(s[k]);
      assert Strip(s)[k - i] == '@';
    }
  }

  /** Strip adds nothing, so an "@" it keeps was in `s`. */
  lemma AtComesFromInput(s: string)
    ensures '@' in Strip(s) ==> '@' in s
  {
    var r := Strip(s);
    if '@' in r {
      StripIsInfix(s);
      var k :| 0 <= k < |r| && r[k] == '@';
      assert s[|s| - |TrimLeft(s)| + k] == '@';
    }
  }

  /** Stripping whitespace neither adds nor removes an "@". */
  lemma StripKeepsAt(s: string)
    ensures '@' in Strip(s) <==> '@' in s
  {
    AtSurvivesStrip(s);
    AtComesFromInput(s);
  }

  /** `name.endswith(".csv")`. */
  predicate HasCsvSuffix(name: string)
    ensures HasCsvSuffix(name) ==> |name| >= 4 && name == name[..|name| - 4] + ".csv"
  {
    |name| >= 4 && name[|name| - 4..] == ".csv"
  }

  /** Any name ending in ".csv" passes, and the check is case-sensitive. */
  lemma CsvSuffixIsExact(stem: string)
    ensures HasCsvSuffix(stem + ".csv")
    ensures !HasCsvSuffix(stem + ".CSV")
  {
    assert (stem + ".csv")[|stem|..] == ".csv";
    assert (stem + ".CSV")[|stem|..] == ".CSV";
  }

  function TotalLength(values: seq<string>): nat
    decreases |values|
  {
    if values == [] then 0 else |values[0]| + TotalLength(values[1..])
  }

  /** `", ".join(values)`. */
  function Join(values: seq<string>, sep: string): (s: string)
    ensures values == [] ==> s == ""
    ensures values != [] ==> |s| == TotalLength(values) + |sep| * (|values| - 1)
    decreases |values|
  {
    if values == [] then ""
    else if |values| == 1 then values[0]
    else values[0] + sep + Join(values[1..], sep)
  }

  // ---------------------------------------------------------------------
  // BulkAddEmailSerializer.validate_csv_file
  // ---------------------------------------------------------------------

  /** What goes wrong reading the rows of a file. */
  datatype CsvProblem =
    | NotUtf8                             // UnicodeDecodeError
    | NoHeaderRow                         // StopIteration from next(reader)
    | EmptyRow                            // IndexError from row[0]
    | InvalidEmails(values: seq<string>)  // the ValidationError of lines 55-57

  /** The ValidationErrors of `validate_csv_file`. */
  datatype CsvError =
    | InvalidFileType                     // line 40
    | ReadFailed(problem: CsvProblem)     // line 59: "Error reading CSV file: ..."

  const ReadFailedPrefix := "Error reading CSV file: "

  function ProblemText(p: CsvProblem): string {
    match p
    case NotUtf8 => "'utf-8' codec can't decode"
    case NoHeaderRow => ""
    case EmptyRow => "list index out of range"
    case InvalidEmails(values) => "Invalid emails found: " + Join(values, ", ")
  }

  /** The message of each error. */
  function ErrorText(e: CsvError): (s: string)
    ensures e == InvalidFileType ==> s == "Invalid file type"
    ensures e.ReadFailed? ==> |s| >= |ReadFailedPrefix| && s[..|ReadFailedPrefix|] == ReadFailedPrefix
    ensures e.ReadFailed? && e.problem.InvalidEmails? ==>
              s == ReadFailedPrefix + "Invalid emails found: " + Join(e.problem.values, ", ")
  {
    match e
    case InvalidFileType => "Invalid file type"
    case ReadFailed(p) => ReadFailedPrefix + ProblemText(p)
  }

  /** A row whose stripped first field contains "@". */
  predicate ValidRow(row: Row)
    ensures ValidRow(row) <==> row != [] && '@' in row[0]
  {
    row != [] && (StripKeepsAt(row[0]); '@' in Strip(row[0]))
  }

  /**
   * What the loop of lines 49-52 makes of the rows after the header: the
   * stripped first fields without "@", in file order, or None when a row has
   * no field at all.
   */
  function InvalidValues(rows: seq<Row>): (r: Option<seq<string>>)
    ensures r.Some? ==> |r.value| <= |rows| && forall i :: 0 <= i < |r.value| ==> '@' !in r.value[i]
    decreases |rows|
  {
    if rows == [] then Some([])
    else
      var last := rows[|rows| - 1];
      match InvalidValues(rows[..|rows| - 1])
      case None => None
      case Some(values) =>
        if last == [] then None
        else if '@' in Strip(last[0]) then Some(values)
        else Some(values + [Strip(last[0])])
  }

  /** The scan fails exactly when some row has no field. */
  lemma {:induction false} InvalidValuesFail(rows: seq<Row>)
    ensures InvalidValues(rows).None? <==> exists k :: 0 <= k < |rows| && rows[k] == []
    decreases |rows|
  {
    if rows != [] {
      var init := rows[..|rows| - 1];
      InvalidValuesFail(init);
      assert forall k :: 0 <= k < |init| ==> init[k] == rows[k];
    }
  }

  /** No value is reported exactly when every row is a valid address. */
  lemma {:induction false} InvalidValuesNoneFound(rows: seq<Row>)
    ensures InvalidValues(rows) == Some([]) <==> forall k :: 0 <= k < |rows| ==> ValidRow(rows[k])
    decreases |rows|
  {
    if rows != [] {
      var init := rows[..|rows| - 1];
      InvalidValuesNoneFound(init);
      assert forall k :: 0 <= k < |init| ==> init[k] == rows[k];
    }
  }

  /** Every row with a field but no "@" in it contributes its stripped field. */
  lemma {:induction false} InvalidValuesComplete(rows: seq<Row>)
    requires InvalidValues(rows).Some?
    ensures forall k :: 0 <= k < |rows| && rows[k] != [] && !ValidRow(rows[k]) ==>
              Strip(rows[k][0]) in InvalidValues(rows).value
    decreases |rows|
  {
    if rows != [] {
      var init := rows[..|rows| - 1];
      InvalidValuesComplete(init);
      assert forall k :: 0 <= k < |init| ==> init[k] == rows[k];
    }
  }

  /**
   * The list of lines 47-52 as a filter, front to back: the stripped first
   * fields of the rows that have a field without "@", in file order.
   */
  function InvalidOf(rows: seq<Row>): seq<string>
    decreases |rows|
  {
    if rows == [] then []
    else (if rows[0] != [] && !ValidRow(rows[0]) then [Strip(rows[0][0])] else []) + InvalidOf(rows[1..])
  }

  lemma {:induction false} InvalidOfAppend(a: seq<Row>, b: seq<Row>)
    ensures InvalidOf(a + b) == InvalidOf(a) + InvalidOf(b)
    decreases |a|
  {
    if a == [] {
      assert a + b == b;
    } else {
      assert (a + b)[0] == a[0] && (a + b)[1..] == a[1..] + b;
      InvalidOfAppend(a[1..], b);
    }
  }

  /** The values come in file order, one per row without "@", and nothing else. */
  lemma {:induction false} InvalidValuesInOrder(rows: seq<Row>)
    requires InvalidValues(rows).Some?
    ensures InvalidValues(rows).value == InvalidOf(rows)
    decreases |rows|
  {
    if rows != [] {
      var init := rows[..|rows| - 1];
      var last := rows[|rows| - 1];
      InvalidValuesInOrder(init);
      InvalidOfAppend(init, [last]);
      assert init + [last] == rows;
      assert [last][1..] == [];
    }
  }

  /** The loop of lines 49-52. */
  method ScanRows(rows: seq<Row>) returns (r: Option<seq<string>>)
    ensures r == InvalidValues(rows)
  {
    var invalid: seq<string> := [];
    var i := 0;
    while i < |rows|
      invariant 0 <= i <= |rows|
      invariant InvalidValues(rows[..i]) == Some(invalid)
    {
      assert rows[..i + 1][..i] == rows[..i];
      if rows[i] == [] {
        assert InvalidValues(rows[..i + 1]).None?;
        InvalidValuesFail(rows[..i + 1]);
        InvalidValuesFail(rows);
        var k :| 0 <= k < i + 1 && rows[..i + 1][k] == [];
        assert rows[k] == [];
        return None;
      }
      var email := Strip(rows[i][0]);
      if '@' !in email {
        invalid := invalid + [email];
      }
      i := i + 1;
    }
    assert rows[..i] == rows;
    r := Some(invalid);
  }

  /** The verdict of `validate_csv_file` on a file name and the content it reads; None accepts. */
  function CsvVerdict(name: string, p: Payload): (r: Option<CsvError>)
    ensures r == Some(InvalidFileType) <==> !HasCsvSuffix(name)
    ensures r.None? ==> HasCsvSuffix(name) && p.utf8 && p.rows != []
    ensures r.Some? && r.value.ReadFailed? && r.value.problem.InvalidEmails? ==>
              |p.rows| >= 1 && r.value.problem.values != []
              && InvalidValues(p.rows[1..]) == Some(r.value.problem.values)
  {
    if !HasCsvSuffix(name) then Some(InvalidFileType)
    else if !p.utf8 then Some(ReadFailed(NotUtf8))
    else if p.rows == [] then Some(ReadFailed(NoHeaderRow))
    else
      match InvalidValues(p.rows[1..])
      case None => Some(ReadFailed(EmptyRow))
      case Some(values) => if values == [] then None else Some(ReadFailed(InvalidEmails(values)))
  }

  /**
   * A file is accepted exactly when its name ends in ".csv", it decodes, it
   * has a header row, and every row after it has a first field containing "@".
   */
  lemma AcceptedFiles(name: string, p: Payload)
    ensures CsvVerdict(name, p).None? <==> && HasCsvSuffix(name) && p.utf8 && p.rows != []
                                           && forall k :: 1 <= k < |p.rows| ==> ValidRow(p.rows[k])
  {
    if p.rows != [] {
      var data := p.rows[1..];
      InvalidValuesNoneFound(data);
      assert forall k :: 1 <= k < |p.rows| ==> p.rows[k] == data[k - 1];
    }
  }

  /**
   * Which error a rejected `.csv` file gets, in the order of lines 43-59:
   * undecodable content, then a missing header row, then a row without a
   * field, and otherwise the values of the rows without "@", in file order.
   */
  lemma RejectedFiles(name: string, p: Payload)
    ensures HasCsvSuffix(name) && !p.utf8 ==> CsvVerdict(name, p) == Some(ReadFailed(NotUtf8))
    ensures HasCsvSuffix(name) && p.utf8 && p.rows == [] ==> CsvVerdict(name, p) == Some(ReadFailed(NoHeaderRow))
    ensures HasCsvSuffix(name) && p.utf8 && (exists k :: 1 <= k < |p.rows| && p.rows[k] == []) ==>
              CsvVerdict(name, p) == Some(ReadFailed(EmptyRow))
    ensures && HasCsvSuffix(name) && p.utf8
            && (forall k :: 1 <= k < |p.rows| ==> p.rows[k] != [])
            && (exists k :: 1 <= k < |p.rows| && !ValidRow(p.rows[k]))
            ==> CsvVerdict(name, p) == Some(ReadFailed(InvalidEmails(InvalidOf(p.rows[1..]))))
  {
    if p.rows != [] {
      var data := p.rows[1..];
      assert forall k :: 1 <= k < |p.rows| ==> p.rows[k] == data[k - 1];
      InvalidValuesFail(data);
      if InvalidValues(data).Some? {
        InvalidValuesInOrder(data);
        InvalidValuesComplete(data);
        if exists k :: 1 <= k < |p.rows| && !ValidRow(p.rows[k]) {
          var k :| 1 <= k < |p.rows| && !ValidRow(p.rows[k]);
          assert Strip(data[k - 1][0]) in InvalidValues(data).value;
        }
      }
    }
  }

  /** The header row is never looked at. */
  lemma HeaderIsNotChecked(name: string, utf8: bool, header1: Row, header2: Row, data: seq<Row>)
    ensures CsvVerdict(name, Payload(utf8, [header1] + data)) == CsvVerdict(name, Payload(utf8, [header2] + data))
  {
    assert ([header1] + data)[1..] == data == ([header2] + data)[1..];
  }

  /**
   * `validate_csv_file`: the name is checked first, without reading; then
   * the whole stream is read and the rows after the header are checked.  On
   * acceptance the same upload is returned.
   */
  method ValidateCsvFile(value: Upload) returns (r: Result<Upload, CsvError>)
    modifies value
    ensures value.consumed == (old(value.consumed) || HasCsvSuffix(value.name))
    ensures match CsvVerdict(value.name, old(value.Remaining()))
            case None => r == Ok(value)
            case Some(e) => r == Err(e)
  {
    if !HasCsvSuffix(value.name) {
      return Err(InvalidFileType);
    }
    var p := value.Read();
    if !p.utf8 {
      return Err(ReadFailed(NotUtf8));
    }
    if p.rows == [] {
      return Err(ReadFailed(NoHeaderRow));
    }
    var invalid := ScanRows(p.rows[1..]);
    if invalid.None? {
      return Err(ReadFailed(EmptyRow));
    }
    if invalid.value != [] {
      return Err(ReadFailed(InvalidEmails(invalid.value)));
    }
    r := Ok(value);
  }

  // ---------------------------------------------------------------------
  // BulkAddEmailSerializer.create
  // ---------------------------------------------------------------------

  /** One EmailMailList row; (email, list) is unique, so the rows form a set. */
  datatype Membership = Membership(email: string, list: ListId)

  /** The subscriber tables: Email addresses, MailList owners, EmailMailList rows. */
  class SubscriberStore {
    var emails: set<string>
    var lists: map<ListId, UserId>
    var memberships: set<Membership>
  }

  /**
   * The addresses lines 75-83 create, in file order: stripped first fields
   * with an "@" that were neither stored before nor seen earlier in the file.
   * None when a row has no field (the IndexError rolls the transaction back).
   */
  function NewAddresses(existing: set<string>, rows: seq<Row>): (r: Option<seq<string>>)
    ensures r.Some? ==> forall i :: 0 <= i < |r.value| ==> '@' in r.value[i] && r.value[i] !in existing
    ensures r.Some? ==> forall i, j :: 0 <= i < j < |r.value| ==> r.value[i] != r.value[j]
    decreases |rows|
  {
    if rows == [] then Some([])
    else if rows[0] == [] then None
    else
      var a := Strip(rows[0][0]);
      var isNew := '@' in a && a !in existing;
      match NewAddresses(if isNew then existing + {a} else existing, rows[1..])
      case None => None
      case Some(later) => if isNew then Some([a] + later) else Some(later)
  }

  /** The import fails exactly when some row has no field. */
  lemma {:induction false} NewAddressesFail(existing: set<string>, rows: seq<Row>)
    ensures NewAddresses(existing, rows).None? <==> exists k :: 0 <= k < |rows| && rows[k] == []
    decreases |rows|
  {
    if rows != [] && rows[0] != [] {
      var a := Strip(rows[0][0]);
      var isNew := '@' in a && a !in existing;
      NewAddressesFail(if isNew then existing + {a} else existing, rows[1..]);
      assert forall k :: 1 <= k < |rows| ==> rows[k] == rows[1..][k - 1];
    }
  }

  /**
   * Every address of a valid row is stored afterwards: it was stored before
   * or it is created.
   */
  lemma {:induction false} NewAddressesComplete(existing: set<string>, rows: seq<Row>)
    requires NewAddresses(existing, rows).Some?
    ensures forall k :: 0 <= k < |rows| && ValidRow(rows[k]) ==>
              Strip(rows[k][0]) in existing || Strip(rows[k][0]) in NewAddresses(existing, rows).value
    decreases |rows|
  {
    if rows != [] {
      var a := Strip(rows[0][0]);
      var isNew := '@' in a && a !in existing;
      var existing' := if isNew then existing + {a} else existing;
      NewAddressesComplete(existing', rows[1..]);
      assert forall k :: 1 <= k < |rows| ==> rows[k] == rows[1..][k - 1];
    }
  }

  /** Every created address is the stripped first field of a valid row. */
  lemma {:induction false} NewAddressesSound(existing: set<string>, rows: seq<Row>)
    requires NewAddresses(existing, rows).Some?
    ensures forall i :: 0 <= i < |NewAddresses(existing, rows).value| ==>
              exists k :: 0 <= k < |rows| && ValidRow(rows[k]) && Strip(rows[k][0]) == NewAddresses(existing, rows).value[i]
    decreases |rows|
  {
    if rows != [] {
      var a := Strip(rows[0][0]);
      var isNew := '@' in a && a !in existing;
      var existing' := if isNew then existing + {a} else existing;
      NewAddressesSound(existing', rows[1..]);
      assert forall k :: 1 <= k < |rows| ==> rows[k] == rows[1..][k - 1];
      var tail := rows[1..];
      var later := NewAddresses(existing', tail).value;
      forall i | 0 <= i < |later|
        ensures exists k :: 0 <= k < |rows| && ValidRow(rows[k]) && Strip(rows[k][0]) == later[i]
      {
        assert exists k :: 0 <= k < |tail| && ValidRow(tail[k]) && Strip(tail[k][0]) == later[i];
        var k :| 0 <= k < |tail| && ValidRow(tail[k]) && Strip(tail[k][0]) == later[i];
        assert rows[k + 1] == tail[k];
      }
      if isNew {
        assert ValidRow(rows[0]);
      }
    }
  }

  /** What `create` makes of the content it reads: the new addresses, or the problem. */
  function ImportOutcome(existing: set<string>, p: Payload): (r: Result<seq<string>, CsvProblem>)
    ensures r.Ok? <==> p.utf8 && p.rows != [] && forall k :: 1 <= k < |p.rows| ==> p.rows[k] != []
    ensures r.Ok? ==> forall i :: 0 <= i < |r.value| ==> '@' in r.value[i] && r.value[i] !in existing
    ensures p.utf8 && p.rows == [] ==> r == Err(NoHeaderRow)
  {
    if !p.utf8 then Err(NotUtf8)
    else if p.rows == [] then Err(NoHeaderRow)
    else
      var data := p.rows[1..];
      NewAddressesFail(existing, data);
      assert forall k :: 1 <= k < |p.rows| ==> p.rows[k] == data[k - 1];
      match NewAddresses(existing, data)
      case None => Err(EmptyRow)
      case Some(added) => Ok(added)
  }

  function Prepend(prefix: seq<string>, r: Option<seq<string>>): Option<seq<string>> {
    match r
    case None => None
    case Some(s) => Some(prefix + s)
  }

  lemma PrependTwice(a: seq<string>, b: seq<string>, r: Option<seq<string>>)
    ensures Prepend(a, Prepend(b, r)) == Prepend(a + b, r)
    ensures Prepend([], r) == r
  {
    if r.Some? {
      assert a + (b + r.value) == a + b + r.value;
      assert [] + r.value == r.value;
    }
  }

  function Elements(s: seq<string>): set<string> {
    set a | a in s
  }

  function MembershipsOf(addresses: seq<string>, list: ListId): set<Membership> {
    set a | a in addresses :: Membership(a, list)
  }

  /**
   * `create`: reads the stream, and inside one transaction creates an Email
   * for every new address of the file and a membership of the list for each
   * of them; an address already stored is not added to the list.  Any
   * exception leaves the tables as they were and becomes
   * "Error processing CSV file: ...".
   */
  method Create(upload: Upload, list: ListId, store: SubscriberStore) returns (r: Result<(), CsvProblem>)
    modifies upload, store
    ensures upload.consumed && store.lists == old(store.lists)
    ensures match ImportOutcome(old(store.emails), old(upload.Remaining()))
            case Err(problem) =>
              && r == Err(problem)
              && store.emails == old(store.emails) && store.memberships == old(store.memberships)
            case Ok(added) =>
              && r == Ok(())
              && store.emails == old(store.emails) + Elements(added)
              && store.memberships == old(store.memberships) + MembershipsOf(added, list)
  {
    var p := upload.Read();
    if !p.utf8 {
      return Err(NotUtf8);
    }
    if p.rows == [] {
      return Err(NoHeaderRow);
    }
    var data := p.rows[1..];
    // the transaction works on copies and commits them at its end
    var emails := store.emails;
    var toCreate: seq<string> := [];
    var i := 0;
    assert data[0..] == data;
    PrependTwice([], [], NewAddresses(emails, data));
    while i < |data|
      invariant 0 <= i <= |data|
      invariant emails == store.emails + Elements(toCreate)
      invariant NewAddresses(store.emails, data) == Prepend(toCreate, NewAddresses(emails, data[i..]))
      invariant upload.consumed && p == old(upload.Remaining())
      invariant store.emails == old(store.emails) && store.lists == old(store.lists)
      invariant store.memberships == old(store.memberships)
    {
      assert data[i..][0] == data[i] && data[i..][1..] == data[i + 1..];
      if data[i] == [] {
        return Err(EmptyRow);
      }
      var email := Strip(data[i][0]);
      if '@' in email {
        var created := email !in emails;  // get_or_create
        if created {
          PrependTwice(toCreate, [email], NewAddresses(emails + {email}, data[i + 1..]));
          assert Elements(toCreate + [email]) == Elements(toCreate) + {email};
          emails := emails + {email};
          toCreate := toCreate + [email];
        }
      }
      i := i + 1;
    }
    assert data[i..] == [];
    assert toCreate + [] == toCreate;
    store.emails := emails;
    store.memberships := store.memberships + MembershipsOf(toCreate, list);
    r := Ok(());
  }

  // ---------------------------------------------------------------------
  // BulkAddEmailSerializer: is_valid() and save()
  // ---------------------------------------------------------------------

  /** What the `maillist` field (line 36) is given: a primary key, or a MailList instance. */
  datatype ListValue = Pk(id: ListId) | Instance(list: ListId)

  /** The errors of a PrimaryKeyRelatedField. */
  datatype ListFieldError =
    | IncorrectType  // "Incorrect type. Expected pk value, received MailList."
    | NoSuchList     // "Invalid pk ... - object does not exist."

  /**
   * The `maillist` field, `PrimaryKeyRelatedField(queryset=MailList.objects.all())`:
   * a key of a stored list resolves to that list.  A MailList instance is no
   * key: `queryset.get(pk=...)` raises TypeError on it, which the field
   * reports as an incorrect type.
   */
  function ListField(v: ListValue, lists: map<ListId, UserId>): (r: Result<ListId, ListFieldError>)
    ensures r.Ok? <==> v.Pk? && v.id in lists
    ensures r.Ok? ==> r.value == v.id
    ensures v.Instance? ==> r == Err(IncorrectType)
    ensures v.Pk? && v.id !in lists ==> r == Err(NoSuchList)
  {
    match v
    case Instance(_) => Err(IncorrectType)
    case Pk(id) => if id in lists then Ok(id) else Err(NoSuchList)
  }

  /** The errors of the `csv_file` field (line 35). */
  datatype FileFieldError =
    | EmptyFile                 // FileField: "The submitted file is empty."
    | Rejected(error: CsvError) // a ValidationError of `validate_csv_file`

  /**
   * The `csv_file` field, `FileField()`: it refuses a file of size 0 before
   * `validate_csv_file` runs, and otherwise that validator decides on the
   * stream as it stands.  The size is that of the whole file, `whole`,
   * wherever the stream `p` stands.
   */
  function FileVerdict(name: string, whole: Payload, p: Payload): (r: Option<FileFieldError>)
    ensures whole == EmptyPayload ==> r == Some(EmptyFile)
    ensures whole != EmptyPayload ==> (r.None? <==> CsvVerdict(name, p).None?)
    ensures whole != EmptyPayload && r.Some? ==> r.value == Rejected(CsvVerdict(name, p).value)
  {
    if whole == EmptyPayload then Some(EmptyFile)
    else
      var verdict := CsvVerdict(name, p);
      if verdict.Some? then Some(Rejected(verdict.value)) else None
  }

  /** The field errors `is_valid()` collects; both fields are always validated. */
  datatype FieldErrors = FieldErrors(csvFile: Option<FileFieldError>, maillist: Option<ListFieldError>)

  const NoErrors := FieldErrors(None, None)

  function ErrorsOf(name: string, whole: Payload, p: Payload, v: ListValue, lists: map<ListId, UserId>): (e: FieldErrors)
    ensures e == NoErrors <==> whole != EmptyPayload && CsvVerdict(name, p).None? && ListField(v, lists).Ok?
    ensures e.csvFile == FileVerdict(name, whole, p)
  {
    var list := ListField(v, lists);
    FieldErrors(FileVerdict(name, whole, p), if list.Err? then Some(list.error) else None)
  }

  /** The failures of `is_valid()` followed by `save()`. */
  datatype ImportFailure =
    | Invalid(errors: FieldErrors)           // is_valid() is False
    | ProcessingFailed(problem: CsvProblem)  // line 92: "Error processing CSV file: ..."

  /**
   * `is_valid()` and then, when it holds, `save()`, as written.  Validation
   * has read the stream to its end, so `create` reads nothing, finds no
   * header row and fails: the tables never change.
   */
  method SaveUpload(upload: Upload, v: ListValue, store: SubscriberStore)
    returns (r: Result<(), ImportFailure>)
    modifies upload, store
    ensures store.emails == old(store.emails) && store.memberships == old(store.memberships)
    ensures store.lists == old(store.lists)
    ensures var errors := ErrorsOf(upload.name, upload.payload, old(upload.Remaining()), v, old(store.lists));
            r == if errors == NoErrors then Err(ProcessingFailed(NoHeaderRow)) else Err(Invalid(errors))
  {
    var file := Some(EmptyFile);
    if upload.payload != EmptyPayload {
      var valid := ValidateCsvFile(upload);
      file := if valid.Err? then Some(Rejected(valid.error)) else None;
    }
    var list := ListField(v, store.lists);
    if file.Some? || list.Err? {
      return Err(Invalid(FieldErrors(file, if list.Err? then Some(list.error) else None)));
    }
    var created := Create(upload, list.value, store);
    if created.Err? {
      return Err(ProcessingFailed(created.error));
    }
    r := Ok(());
  }

  /**
   * The same with the stream rewound before `create` reads it: a file and a
   * list that pass validation add every new address of the file's rows, and
   * a membership of the list for each of them.
   */
  method SaveUploadRewound(upload: Upload, v: ListValue, store: SubscriberStore)
    returns (r: Result<(), ImportFailure>)
    modifies upload, store
    ensures store.lists == old(store.lists)
    ensures var errors := ErrorsOf(upload.name, upload.payload, old(upload.Remaining()), v, old(store.lists));
            if errors != NoErrors then
              && r == Err(Invalid(errors))
              && store.emails == old(store.emails) && store.memberships == old(store.memberships)
            else
              && r == Ok(())
              && ImportOutcome(old(store.emails), upload.payload).Ok?
              && var added := ImportOutcome(old(store.emails), upload.payload).value;
                 && store.emails == old(store.emails) + Elements(added)
                 && store.memberships == old(store.memberships) + MembershipsOf(added, v.id)
  {
    var file := Some(EmptyFile);
    if upload.payload != EmptyPayload {
      var valid := ValidateCsvFile(upload);
      file := if valid.Err? then Some(Rejected(valid.error)) else None;
    }
    var list := ListField(v, store.lists);
    if file.Some? || list.Err? {
      return Err(Invalid(FieldErrors(file, if list.Err? then Some(list.error) else None)));
    }
    AcceptedFileImports(old(store.emails), upload.name, old(upload.Remaining()));
    upload.Rewind();
    var created := Create(upload, list.value, store);
    assert created.Ok?;
    r := Ok(());
  }

  /**
   * A file that validation accepts imports without error once it is read
   * from its start; afterwards the address of every row after the header is
   * stored, and every created address comes from one of those rows.
   */
  lemma AcceptedFileImports(existing: set<string>, name: string, p: Payload)
    requires CsvVerdict(name, p).None?
    ensures ImportOutcome(existing, p).Ok?
    ensures var added := ImportOutcome(existing, p).value;
            && (forall k :: 1 <= k < |p.rows| ==> Strip(p.rows[k][0]) in existing || Strip(p.rows[k][0]) in added)
            && (forall i :: 0 <= i < |added| ==> exists k :: 1 <= k < |p.rows| && Strip(p.rows[k][0]) == added[i])
  {
    var data := p.rows[1..];
    AcceptedFiles(name, p);
    assert forall k :: 1 <= k < |p.rows| ==> p.rows[k] == data[k - 1];
    InvalidValuesFail(data);
    NewAddressesFail(existing, data);
    NewAddressesComplete(existing, data);
    NewAddressesSound(existing, data);
    var added := ImportOutcome(existing, p).value;
    forall i | 0 <= i < |added|
      ensures exists k :: 1 <= k < |p.rows| && Strip(p.rows[k][0]) == added[i]
    {
      var k :| 0 <= k < |data| && ValidRow(data[k]) && Strip(data[k][0]) == added[i];
      assert p.rows[k + 1] == data[k];
    }
  }

  /**
   * A concrete file on which the two readings differ: validation accepts it,
   * the second read finds nothing, and the rewound read imports its address.
   */
  lemma SecondReadFindsNoHeader()
    ensures var p := Payload(true, [["email"], ["a@x.com"]]);
            && CsvVerdict("list.csv", p).None?
            && ImportOutcome({}, EmptyPayload) == Err(NoHeaderRow)
            && ImportOutcome({}, p) == Ok(["a@x.com"])
  {
    var p := Payload(true, [["email"], ["a@x.com"]]);
    var a := "a@x.com";
    assert TrimLeft(a) == a && TrimRight(a) == a;
    assert a[1] == '@';
    assert p.rows[1..] == [[a]] && [[a]][1..] == [];
    assert [[a]][0][0] == a && Strip(a) == a;
    assert '@' in a && a !in {};
    assert NewAddresses({} + {a}, [[a]][1..]) == Some([]);
    assert [a] + [] == [a];
    assert NewAddresses({}, [[a]]) == Some([a]);
  }

  // ---------------------------------------------------------------------
  // EmailMailListSerializer
  // ---------------------------------------------------------------------

  /** The ValidationErrors of `validate`, in the order it checks them. */
  datatype MembershipError =
    | NoRequest          // "Request context is required."
    | EmailDoesNotExist  // "Email does not exist."
    | ListNotAccessible  // "Mail list does not exist or you do not have access to it."
    | AlreadyMember      // "Email already exists in this mail list."

  /**
   * `validate(attrs)`: the first failing check decides the error; when all
   * pass, `attrs` comes back unchanged.
   */
  function ValidateMembership(requester: Option<UserId>, attrs: Membership, emails: set<string>,
                              lists: map<ListId, UserId>, memberships: set<Membership>): (r: Result<Membership, MembershipError>)
    ensures r.Ok? ==> r.value == attrs
    ensures r.Ok? <==> && requester.Some? && attrs.email in emails
                       && attrs.list in lists && lists[attrs.list] == requester.value
                       && attrs !in memberships
    ensures r == Err(NoRequest) <==> requester.None?
    ensures r == Err(EmailDoesNotExist) <==> requester.Some? && attrs.email !in emails
    ensures r == Err(ListNotAccessible) <==>
              && requester.Some? && attrs.email in emails
              && (attrs.list !in lists || lists[attrs.list] != requester.value)
    ensures r == Err(AlreadyMember) <==>
              && requester.Some? && attrs.email in emails
              && attrs.list in lists && lists[attrs.list] == requester.value
              && attrs in memberships
  {
    if requester.None? then Err(NoRequest)
    else if attrs.email !in emails then Err(EmailDoesNotExist)
    else if attrs.list !in lists || lists[attrs.list] != requester.value then Err(ListNotAccessible)
    else if attrs in memberships then Err(AlreadyMember)
    else Ok(attrs)
  }

  /** The database errors `create` can raise. */
  datatype DbError = DoesNotExist | IntegrityError

  /**
   * `create(validated_data)`: looks the address up and inserts the
   * membership; after a successful `validate` it adds exactly that one row.
   */
  method CreateMembership(store: SubscriberStore, attrs: Membership) returns (r: Result<Membership, DbError>)
    modifies store
    ensures store.emails == old(store.emails) && store.lists == old(store.lists)
    ensures attrs.email !in old(store.emails) ==> r == Err(DoesNotExist) && store.memberships == old(store.memberships)
    ensures attrs.email in old(store.emails) && attrs in old(store.memberships) ==>
              r == Err(IntegrityError) && store.memberships == old(store.memberships)
    ensures attrs.email in old(store.emails) && attrs !in old(store.memberships) ==>
              r == Ok(attrs) && store.memberships == old(store.memberships) + {attrs}
  {
    if attrs.email !in store.emails {
      return Err(DoesNotExist);
    }
    if attrs in store.memberships {
      return Err(IntegrityError);
    }
    store.memberships := store.memberships + {attrs};
    r := Ok(attrs);
  }

  /** What `validate` accepts, `create` inserts as one new row. */
  lemma ValidatedMembershipIsNew(requester: Option<UserId>, attrs: Membership, emails: set<string>,
                                 lists: map<ListId, UserId>, memberships: set<Membership>)
    requires ValidateMembership(requester, attrs, emails, lists, memberships).Ok?
    ensures attrs.email in emails && attrs !in memberships
    ensures |memberships + {attrs}| == |memberships| + 1
  {
  }
}
