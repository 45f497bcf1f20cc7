/**
 * The chat-log endpoint (app/routers/db.py): which address a request is
 * logged under, the row written for it, and the insert whose failure is
 * only reported.
 *
 * The request is reduced to its `x-forwarded-for` header and the client's
 * host; the Supabase insert is a parameter that either succeeds or raises
 * with a message.
 */
module ChatLog {
  import opened Wrappers
  import opened Text

  /** `s.split(',')[0]`: everything before the first comma, or all of `s` when it has none. */
  function FirstField(s: string): (r: string)
    ensures ',' !in r
    ensures |r| <= |s| && r == s[..|r|]
    ensures |r| < |s| ==> s[|r|] == ','
  {
    if |s| == 0 || s[0] == ',' then ""
    else
      var rest := FirstField(s[1..]);
      assert [s[0]] + rest == s[..|rest| + 1];
      [s[0]] + rest
  }

  /** Without a comma the first field is everything. */
  lemma FirstFieldNoComma(s: string)
    requires ',' !in s
    ensures FirstField(s) == s
  {
  }

  /**
   * `get_ip`: a present, non-empty `x-forwarded-for` header gives its first
   * comma-separated field without surrounding white space; otherwise the
   * client's host.
   */
  function GetIp(forwarded: Option<string>, clientHost: string): (ip: string)
    ensures forwarded.None? || forwarded.value == [] ==> ip == clientHost
    ensures forwarded.Some? && forwarded.value != [] ==> ip == Strip(FirstField(forwarded.value), IsPySpace)
  {
    if forwarded.Some? && forwarded.value != [] then Strip(FirstField(forwarded.value), IsPySpace)
    else clientHost
  }

  /** An address taken from the header is a slice of its first field, so it never holds a comma. */
  lemma HeaderIpHasNoComma(header: string, clientHost: string)
    requires header != []
    ensures ',' !in GetIp(Some(header), clientHost)
  {
    var f := FirstField(header);
    StripSlice(f, IsPySpace);
    var i, j :| 0 <= i <= j <= |f| && Strip(f, IsPySpace) == f[i..j];
    SliceLacks(f, i, j, ',');
  }

  /** A character absent from a string is absent from each slice of it. */
  lemma SliceLacks(s: string, i: nat, j: nat, c: char)
    requires i <= j <= |s| && c !in s
    ensures c !in s[i..j]
  {
    forall q | 0 <= q < j - i
      ensures s[i..j][q] != c
    {
      assert s[i..j][q] == s[i + q];
    }
  }

  /** A header without a comma is used whole, only stripped. */
  lemma NoCommaWholeHeader(header: string, clientHost: string)
    requires header != [] && ',' !in header
    ensures GetIp(Some(header), clientHost) == Strip(header, IsPySpace)
  {
    FirstFieldNoComma(header);
  }

  /** A non-empty header whose first field is blank is logged as the empty address, not the host. */
  lemma BlankFirstFieldGivesEmpty(clientHost: string)
    ensures GetIp(Some(" , 10.0.0.1"), clientHost) == ""
  {
    var h := " , 10.0.0.1";
    assert h[1..] == ", 10.0.0.1";
    assert FirstField(h[1..]) == "";
    assert FirstField(h) == " ";
    assert StripLeft(" ", IsPySpace) == StripLeft(" "[1..], IsPySpace) == "";
  }

  /** The request body: the question and the answer shown to the user. */
  datatype UserInput = UserInput(inputText: string, chatResponse: string)

  /** The `chat_logs` row. */
  datatype LogRow = LogRow(userId: string, ipAddress: string, content: string, response: string)

  /** The row `request` inserts. */
  function InsertData(data: UserInput, userIp: string): (row: LogRow)
    ensures row.userId == "public" && row.ipAddress == userIp
    ensures row.content == data.inputText && row.response == data.chatResponse
  {
    LogRow("public", userIp, data.inputText, data.chatResponse)
  }

  /** What the handler reports on the console after the insert. */
  datatype Report = Inserted | InsertFailed(error: string)

  /**
   * `request`: one insert of the row, whose outcome is only reported; the
   * handler itself always returns normally, with no body.
   */
  function HandleRequest(data: UserInput, userIp: string, insert: LogRow -> Result<(), string>): (r: (LogRow, Report))
    ensures r.0 == InsertData(data, userIp)
    ensures insert(r.0).Ok? <==> r.1 == Inserted
    ensures insert(r.0).Err? ==> r.1 == InsertFailed(insert(r.0).error)
  {
    var row := InsertData(data, userIp);
    match insert(row)
    case Ok(_) => (row, Inserted)
    case Err(e) => (row, InsertFailed(e))
  }

  /** The console line of a report. */
  function ReportLine(r: Report): (line: string)
    ensures r.Inserted? <==> line == "[Row Insert] Success."
  {
    assert forall e :: ("[Row Insert] Error: " + e)[13] == 'E';
    match r
    case Inserted => "[Row Insert] Success."
    case InsertFailed(e) => "[Row Insert] Error: " + e
  }
}
