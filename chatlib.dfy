/**
 * The trivia wire protocol: fixed-header frames
 * `CMD (16, space padded) | LEN (4 digits) | payload`
 * and the `#`-separated sub-fields inside a payload.
 */
module ChatLib {
  import opened Wrappers
  import opened Strings

  // Protocol constants
  const CMD_FIELD_LENGTH: nat := 16
  const LENGTH_FIELD_LENGTH: nat := 4
  /** 10 ** LENGTH_FIELD_LENGTH - 1 */
  const MAX_DATA_LENGTH: nat := 9999
  const MSG_HEADER_LENGTH: nat := CMD_FIELD_LENGTH + 1 + LENGTH_FIELD_LENGTH + 1
  const MAX_MSG_LENGTH: nat := MSG_HEADER_LENGTH + MAX_DATA_LENGTH
  const DELIMITER: char := '|'
  const DATA_DELIMITER: char := '#'

  // Client command names
  const LOGIN: string := "LOGIN"
  const LOGOUT: string := "LOGOUT"
  const MY_SCORE: string := "MY_SCORE"
  const HIGHSCORE: string := "HIGHSCORE"
  const GET_QUESTION: string := "GET_QUESTION"
  const SEND_ANSWER: string := "SEND_ANSWER"
  const LOGGED: string := "LOGGED"

  // Server command names listed with the protocol; the server sends
  // `ERROR` for every failure, not only a failed login
  const LOGIN_OK: string := "LOGIN_OK"
  const ERROR: string := "ERROR"

  // ---------------------------------------------------------------------
  // Building a frame
  // ---------------------------------------------------------------------

  /** The length field: `len(data)` zero padded to four digits. */
  function LengthField(n: nat): (r: string)
    requires n <= MAX_DATA_LENGTH
    ensures |r| == LENGTH_FIELD_LENGTH
    ensures IsNumeric(r) && DecimalValue(r) == n
  {
    var digits := NatToString(n);
    NatToStringLength(n);
    NatToStringValue(n);
    if n < 10 then LeadingZeros("000", digits); "000" + digits
    else if n < 100 then LeadingZeros("00", digits); "00" + digits
    else if n < 1000 then LeadingZeros("0", digits); "0" + digits
    else digits
  }

  /** The wire layout of a frame carrying `cmd` and `data`, position by position. */
  predicate IsFrameOf(frame: string, cmd: string, data: string)
  {
    && |cmd| <= CMD_FIELD_LENGTH
    && |frame| == MSG_HEADER_LENGTH + |data|
    && frame[..|cmd|] == cmd
    && (forall i :: |cmd| <= i < CMD_FIELD_LENGTH ==> frame[i] == ' ')
    && frame[CMD_FIELD_LENGTH] == DELIMITER
    && IsNumeric(frame[CMD_FIELD_LENGTH + 1..MSG_HEADER_LENGTH - 1])
    && DecimalValue(frame[CMD_FIELD_LENGTH + 1..MSG_HEADER_LENGTH - 1]) == |data|
    && frame[MSG_HEADER_LENGTH - 1] == DELIMITER
    && frame[MSG_HEADER_LENGTH..] == data
  }

  /** `build_message`: `None` when a field is too long for its header slot. */
  function BuildMessage(cmd: string, data: string): (r: Option<string>)
    ensures r.None? <==> |cmd| > CMD_FIELD_LENGTH || |data| > MAX_DATA_LENGTH
    ensures r.Some? ==> IsFrameOf(r.value, cmd, data)
    ensures r.Some? ==> |r.value| <= MAX_MSG_LENGTH
  {
    if |cmd| <= CMD_FIELD_LENGTH && |data| <= MAX_DATA_LENGTH then
      var padded := cmd + Spaces(CMD_FIELD_LENGTH - |cmd|);
      var lengthField := LengthField(|data|);
      var frame := padded + [DELIMITER] + lengthField + [DELIMITER] + data;
      assert frame[..|cmd|] == cmd;
      assert frame[CMD_FIELD_LENGTH + 1..MSG_HEADER_LENGTH - 1] == lengthField;
      assert frame[MSG_HEADER_LENGTH..] == data;
      Some(frame)
    else
      None
  }

  // ---------------------------------------------------------------------
  // Parsing a frame
  // ---------------------------------------------------------------------

  /** What `parse_message` gives back: `(cmd, msg)`, `(None, None)`, or an `IndexError`. */
  datatype ParseResult =
    | Parsed(cmd: string, payload: string)
    | Invalid
    | IndexOutOfRange

  /**
   * The part of `parse_message` after the delimiter check: split at every
   * `|`, strip all spaces from the first two pieces, demand a numeric length
   * field, keep the third piece, check the three lengths.
   */
  function ParseFields(s: string): (r: ParseResult)
    ensures r.Parsed? ==> ' ' !in r.cmd && |r.cmd| <= CMD_FIELD_LENGTH
    ensures r.Parsed? ==> |r.payload| <= MAX_DATA_LENGTH && DELIMITER !in r.payload
    ensures r == IndexOutOfRange ==> Count(s, DELIMITER) < 2
  {
    var parts := Split(s, DELIMITER);
    if |parts| < 2 then IndexOutOfRange
    else
      var cmd := RemoveSpaces(parts[0]);
      var lengthField := RemoveSpaces(parts[1]);
      if !IsNumeric(lengthField) then Invalid
      else if |parts| < 3 then IndexOutOfRange
      else
        var msg := parts[2];
        if |cmd| <= CMD_FIELD_LENGTH && |msg| <= MAX_DATA_LENGTH && |lengthField| <= LENGTH_FIELD_LENGTH
        then Parsed(cmd, msg)
        else Invalid
  }

  /**
   * `parse_message` as written. Its delimiter check reads
   * `(not data[16] == "|") and data[21] == "|"`, and Python evaluates
   * `data[21]` only when `data[16]` is not the delimiter.
   */
  function ParseMessage(s: string): (r: ParseResult)
    ensures s == "" ==> r == Invalid
    ensures 0 < |s| <= CMD_FIELD_LENGTH ==> r == IndexOutOfRange
    ensures CMD_FIELD_LENGTH < |s| < MSG_HEADER_LENGTH && s[CMD_FIELD_LENGTH] != DELIMITER ==> r == IndexOutOfRange
    ensures |s| >= MSG_HEADER_LENGTH && s[CMD_FIELD_LENGTH] != DELIMITER && s[MSG_HEADER_LENGTH - 1] == DELIMITER ==> r == Invalid
    ensures r.Parsed? ==> ' ' !in r.cmd && |r.cmd| <= CMD_FIELD_LENGTH
    ensures r.Parsed? ==> |r.payload| <= MAX_DATA_LENGTH && DELIMITER !in r.payload
  {
    if s == "" then Invalid
    else if |s| <= CMD_FIELD_LENGTH then IndexOutOfRange
    else if s[CMD_FIELD_LENGTH] != DELIMITER && |s| < MSG_HEADER_LENGTH then IndexOutOfRange
    else if s[CMD_FIELD_LENGTH] != DELIMITER && s[MSG_HEADER_LENGTH - 1] == DELIMITER then Invalid
    else ParseFields(s)
  }

  /**
   * Parsing a frame with `|` at positions 16 and 21 and no other `|` in its
   * 22-character header: the declared length only has to be numeric once
   * spaces are removed, its value is never compared with the payload, and
   * the payload is the text up to the next `|`.
   */
  lemma ParseOfHeader(cmdField: string, lengthField: string, payload: string)
    requires |cmdField| == CMD_FIELD_LENGTH && DELIMITER !in cmdField
    requires |lengthField| == LENGTH_FIELD_LENGTH && DELIMITER !in lengthField
    ensures
      var text := Split(payload, DELIMITER)[0];
      ParseMessage(cmdField + [DELIMITER] + lengthField + [DELIMITER] + payload) ==
        if !IsNumeric(RemoveSpaces(lengthField)) then Invalid
        else if |text| <= MAX_DATA_LENGTH then Parsed(RemoveSpaces(cmdField), text)
        else Invalid
  {
    var rest := lengthField + [DELIMITER] + payload;
    var frame := cmdField + [DELIMITER] + rest;
    assert frame == cmdField + [DELIMITER] + lengthField + [DELIMITER] + payload;
    assert frame[CMD_FIELD_LENGTH] == DELIMITER;
    SplitAfter(cmdField, DELIMITER, rest);
    SplitAfter(lengthField, DELIMITER, payload);
    ParseFieldsOfSplit(frame, cmdField, lengthField, payload);
  }

  /** Proof step: the field checks read the first three pieces of the split. */
  lemma ParseFieldsOfSplit(s: string, cmdField: string, lengthField: string, payload: string)
    requires Split(s, DELIMITER) == [cmdField] + ([lengthField] + Split(payload, DELIMITER))
    ensures
      var text := Split(payload, DELIMITER)[0];
      ParseFields(s) ==
        if !IsNumeric(RemoveSpaces(lengthField)) then Invalid
        else if |text| <= MAX_DATA_LENGTH && |RemoveSpaces(cmdField)| <= CMD_FIELD_LENGTH
             && |RemoveSpaces(lengthField)| <= LENGTH_FIELD_LENGTH
        then Parsed(RemoveSpaces(cmdField), text)
        else Invalid
  {
    var parts := Split(s, DELIMITER);
    assert parts[0] == cmdField && parts[1] == lengthField && parts[2] == Split(payload, DELIMITER)[0];
  }

  /**
   * A frame with `|` at positions 16 and 21 and no other `|` in its header is
   * rejected when its length field is not a number once spaces are removed.
   */
  lemma ParseRejectsBadLengthField(s: string)
    requires |s| >= MSG_HEADER_LENGTH
    requires s[CMD_FIELD_LENGTH] == DELIMITER && s[MSG_HEADER_LENGTH - 1] == DELIMITER
    requires DELIMITER !in s[..CMD_FIELD_LENGTH] && DELIMITER !in s[CMD_FIELD_LENGTH + 1..MSG_HEADER_LENGTH - 1]
    requires !IsNumeric(RemoveSpaces(s[CMD_FIELD_LENGTH + 1..MSG_HEADER_LENGTH - 1]))
    ensures ParseMessage(s) == Invalid
  {
    var cmdField, lengthField := s[..CMD_FIELD_LENGTH], s[CMD_FIELD_LENGTH + 1..MSG_HEADER_LENGTH - 1];
    assert s == cmdField + [DELIMITER] + lengthField + [DELIMITER] + s[MSG_HEADER_LENGTH..];
    ParseOfHeader(cmdField, lengthField, s[MSG_HEADER_LENGTH..]);
  }

  /**
   * Round trip: a command without spaces or `|` and a payload without `|`,
   * both within their limits, come back unchanged from the built frame.
   */
  lemma RoundTrip(cmd: string, data: string)
    requires |cmd| <= CMD_FIELD_LENGTH && ' ' !in cmd && DELIMITER !in cmd
    requires |data| <= MAX_DATA_LENGTH && DELIMITER !in data
    ensures BuildMessage(cmd, data).Some?
    ensures ParseMessage(BuildMessage(cmd, data).value) == Parsed(cmd, data)
  {
    var cmdField := cmd + Spaces(CMD_FIELD_LENGTH - |cmd|);
    var lengthField := LengthField(|data|);
    PaddedCommand(cmd);
    LengthFieldIsPlain(|data|);
    SplitNoDelimiter(data, DELIMITER);
    ParseOfHeader(cmdField, lengthField, data);
    assert BuildMessage(cmd, data).value == cmdField + [DELIMITER] + lengthField + [DELIMITER] + data;
  }

  /** The padded command field holds no `|`, and removing its spaces gives the command back. */
  lemma PaddedCommand(cmd: string)
    requires |cmd| <= CMD_FIELD_LENGTH && ' ' !in cmd && DELIMITER !in cmd
    ensures
      var field := cmd + Spaces(CMD_FIELD_LENGTH - |cmd|);
      DELIMITER !in field && RemoveSpaces(field) == cmd
  {
    var padding := Spaces(CMD_FIELD_LENGTH - |cmd|);
    assert DELIMITER !in padding;
    RemoveSpacesAppend(cmd, padding);
    RemoveSpacesKeeps(cmd);
    RemoveSpacesOfSpaces(padding);
  }

  /** The length field is digits only: no `|` and no spaces. */
  lemma LengthFieldIsPlain(n: nat)
    requires n <= MAX_DATA_LENGTH
    ensures DELIMITER !in LengthField(n) && RemoveSpaces(LengthField(n)) == LengthField(n)
  {
    var field := LengthField(n);
    forall i | 0 <= i < |field| ensures field[i] != DELIMITER && field[i] != ' ' {
      assert IsDigit(field[i]);
    }
    RemoveSpacesKeeps(field);
  }

  /**
   * `parse_message` with the delimiter check its comment describes: the
   * header must be complete and both delimiters in place.
   */
  function ParseFrame(s: string): (r: ParseResult)
    ensures r != IndexOutOfRange
    ensures r.Parsed? ==> |s| >= MSG_HEADER_LENGTH && s[CMD_FIELD_LENGTH] == DELIMITER && s[MSG_HEADER_LENGTH - 1] == DELIMITER
    ensures |s| >= MSG_HEADER_LENGTH && s[CMD_FIELD_LENGTH] == DELIMITER && s[MSG_HEADER_LENGTH - 1] == DELIMITER ==> r == ParseMessage(s)
  {
    if |s| < MSG_HEADER_LENGTH || s[CMD_FIELD_LENGTH] != DELIMITER || s[MSG_HEADER_LENGTH - 1] != DELIMITER then Invalid
    else
      CountTwoDelimiters(s);
      ParseFields(s)
  }

  lemma CountTwoDelimiters(s: string)
    requires |s| >= MSG_HEADER_LENGTH && s[CMD_FIELD_LENGTH] == DELIMITER && s[MSG_HEADER_LENGTH - 1] == DELIMITER
    ensures Count(s, DELIMITER) >= 2
  {
    var a, b := s[..MSG_HEADER_LENGTH - 1], s[MSG_HEADER_LENGTH - 1..];
    assert s == a + b;
    CountAppend(a, b, DELIMITER);
    assert a == a[..CMD_FIELD_LENGTH] + a[CMD_FIELD_LENGTH..];
    CountAppend(a[..CMD_FIELD_LENGTH], a[CMD_FIELD_LENGTH..], DELIMITER);
    assert DELIMITER in a[CMD_FIELD_LENGTH..];
    assert DELIMITER in b;
  }

  /**
   * The check as written lets through a frame with neither delimiter in
   * place, as long as `|` occurs twice elsewhere: a one-character command,
   * `|`, a one-digit length, `|` and any 18 characters other than `|` (for
   * example `A|5|` and 18 letters) is accepted, while the corrected check
   * rejects it.
   */
  lemma PrecedenceAcceptsMisplacedDelimiters(c: char, digit: char, text: string)
    requires c != ' ' && c != DELIMITER && IsDigit(digit)
    requires |text| == 18 && DELIMITER !in text
    ensures
      var s := [c, DELIMITER, digit, DELIMITER] + text;
      && |s| == MSG_HEADER_LENGTH
      && s[CMD_FIELD_LENGTH] != DELIMITER && s[MSG_HEADER_LENGTH - 1] != DELIMITER
      && ParseMessage(s) == Parsed([c], text)
      && ParseFrame(s) == Invalid
  {
    var s := [c, DELIMITER, digit, DELIMITER] + text;
    assert s[CMD_FIELD_LENGTH] == text[12] && s[MSG_HEADER_LENGTH - 1] == text[17];
    assert ParseMessage(s) == ParseFields(s);
    assert s == [c] + [DELIMITER] + [digit] + [DELIMITER] + text;
    FieldsOfPlainFrame([c], [digit], text);
  }

  /** Splitting `cmd|len|text` with plain fields yields exactly those fields. */
  lemma FieldsOfPlainFrame(cmd: string, len: string, text: string)
    requires |cmd| <= CMD_FIELD_LENGTH && ' ' !in cmd && DELIMITER !in cmd
    requires |len| <= LENGTH_FIELD_LENGTH && IsNumeric(len)
    requires |text| <= MAX_DATA_LENGTH && DELIMITER !in text
    ensures ParseFields(cmd + [DELIMITER] + len + [DELIMITER] + text) == Parsed(cmd, text)
  {
    var tail := len + [DELIMITER] + text;
    var s := cmd + [DELIMITER] + tail;
    assert s == cmd + [DELIMITER] + len + [DELIMITER] + text;
    assert DELIMITER !in len && ' ' !in len by {
      forall i | 0 <= i < |len| ensures len[i] != DELIMITER && len[i] != ' ' {
        assert IsDigit(len[i]);
      }
    }
    SplitAfter(cmd, DELIMITER, tail);
    SplitAfter(len, DELIMITER, text);
    SplitNoDelimiter(text, DELIMITER);
    RemoveSpacesKeeps(cmd);
    RemoveSpacesKeeps(len);
    ParseFieldsOfSplit(s, cmd, len, text);
  }

  // ---------------------------------------------------------------------
  // Payload sub-fields
  // ---------------------------------------------------------------------

  /**
   * `split_data`: the `#`-separated fields when there are exactly
   * `expectedFields` separators, otherwise `None` (the source's `[None]`).
   */
  function SplitData(msg: string, expectedFields: int): (r: Option<seq<string>>)
    ensures r.Some? <==> Count(msg, DATA_DELIMITER) == expectedFields
    ensures r.Some? ==> |r.value| == expectedFields + 1
    ensures r.Some? ==> forall i :: 0 <= i < |r.value| ==> DATA_DELIMITER !in r.value[i]
    ensures r.Some? ==> Join(r.value, [DATA_DELIMITER]) == msg
  {
    if Count(msg, DATA_DELIMITER) == expectedFields then
      JoinSplit(msg, DATA_DELIMITER);
      Some(Split(msg, DATA_DELIMITER))
    else None
  }

  /** `join_data`: accumulate `field#` for every field, then drop the last character. */
  method JoinData(fields: seq<string>) returns (msg: string)
    ensures msg == Join(fields, [DATA_DELIMITER])
    ensures fields != [] ==> msg + [DATA_DELIMITER] == Terminated(fields, [DATA_DELIMITER])
  {
    msg := "";
    for i := 0 to |fields|
      invariant msg == Terminated(fields[..i], [DATA_DELIMITER])
    {
      assert fields[..i + 1][..i] == fields[..i];
      msg := msg + fields[i] + [DATA_DELIMITER];
    }
    assert fields[..|fields|] == fields;
    TerminatedIsJoin(fields, [DATA_DELIMITER]);
    msg := SliceTo(msg, |msg| - 1);
  }

  /** Splitting what `join_data` produced, expecting one separator fewer than fields, restores the fields. */
  lemma SplitDataJoin(fields: seq<string>)
    requires |fields| > 0
    requires forall i :: 0 <= i < |fields| ==> DATA_DELIMITER !in fields[i]
    ensures SplitData(Join(fields, [DATA_DELIMITER]), |fields| - 1) == Some(fields)
  {
    CountJoin(fields, DATA_DELIMITER);
    SplitJoin(fields, DATA_DELIMITER);
  }
}
