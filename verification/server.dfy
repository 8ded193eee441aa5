/** The message endpoints of the Express server in app.js. The data file is
    read whole and written whole; the request body's `name` and `content` are
    optional strings, and the two clock readings are parameters. */
module MessageServer {
  import opened Wrappers
  import opened Text
  import opened Sorting

  const MaxNameLength := 50
  const MaxContentLength := 500

  /** One stored message; `time` is the ISO timestamp as milliseconds. */
  datatype Record = Record(name: string, content: string, time: int, id: int)

  /** The data file: unreadable, not JSON, JSON whose value is not an array,
      or an array of records. */
  datatype DataFile = Missing | Unparseable | NotAList | Saved(records: seq<Record>)

  datatype Rejection = MissingField | NameTooLong | ContentTooLong

  /** 200 with the new record, 400 with the reason, 500 when the write fails,
      or no response at all when the read callback throws. */
  datatype Response = Created(record: Record) | BadRequest(reason: Rejection) | StorageError | Crashed

  datatype PostResult = PostResult(response: Response, file: DataFile)

  /** A field is given when it is a non-empty string (`!name` is false). */
  predicate Given(f: Option<string>) {
    f.Some? && f.value != ""
  }

  /** The validation of `POST /messages`: presence of both fields first, then
      the name's length, then the content's length, each measured on the
      text as sent. */
  function Validate(name: Option<string>, content: Option<string>): (r: Option<Rejection>)
    ensures r == Some(MissingField) <==> !Given(name) || !Given(content)
    ensures r == Some(NameTooLong) <==> Given(name) && Given(content) && |name.value| > MaxNameLength
    ensures r == Some(ContentTooLong) <==>
      Given(name) && Given(content) && |name.value| <= MaxNameLength && |content.value| > MaxContentLength
    ensures r.None? <==>
      && name.Some? && 1 <= |name.value| <= MaxNameLength
      && content.Some? && 1 <= |content.value| <= MaxContentLength
  {
    if !Given(name) || !Given(content) then Some(MissingField)
    else if |name.value| > MaxNameLength then Some(NameTooLong)
    else if |content.value| > MaxContentLength then Some(ContentTooLong)
    else None
  }

  /** The list `POST /messages` appends to: a file that cannot be read or
      parsed counts as empty; a parsed value that is not an array has no
      `push`, so there is no list. */
  function Stored(file: DataFile): (r: Option<seq<Record>>)
    ensures r.None? <==> file.NotAList?
    ensures file.Saved? ==> r == Some(file.records)
    ensures file.Missing? || file.Unparseable? ==> r == Some([])
  {
    match file
    case Saved(records) => Some(records)
    case NotAList => None
    case _ => Some([])
  }

  /** `POST /messages`. A rejected request never touches the file; an accepted
      one appends the trimmed record to the stored list and writes the whole
      list back; a failed write answers 500. When the file holds JSON that is
      not an array, `push` throws inside the read callback: nothing is
      written and no response is sent. */
  function PostMessage(file: DataFile, name: Option<string>, content: Option<string>,
                       isoTime: int, stamp: int, writeOk: bool): (r: PostResult)
    ensures Validate(name, content).Some? ==>
      r == PostResult(BadRequest(Validate(name, content).value), file)
    ensures Validate(name, content).None? && file.NotAList? ==> r == PostResult(Crashed, file)
    ensures Validate(name, content).None? && !file.NotAList? && !writeOk ==> r == PostResult(StorageError, file)
    ensures r.response.Created? <==> Validate(name, content).None? && !file.NotAList? && writeOk
    ensures r.response.Created? ==>
      var rec := r.response.record;
      && rec.name == Trim(name.value) && rec.content == Trim(content.value)
      && rec.time == isoTime && rec.id == stamp
      && |rec.name| <= MaxNameLength && |rec.content| <= MaxContentLength
      && r.file == Saved(Stored(file).value + [rec])
  {
    match Validate(name, content)
    case Some(reason) => PostResult(BadRequest(reason), file)
    case None =>
      var rec := Record(Trim(name.value), Trim(content.value), isoTime, stamp);
      match Stored(file)
      case None => PostResult(Crashed, file)
      case Some(before) =>
        if writeOk then PostResult(Created(rec), Saved(before + [rec]))
        else PostResult(StorageError, file)
  }

  function TimeOf(rec: Record): int { rec.time }

  /** `GET /messages`: the stored records newest first; an unreadable or
      unparseable file answers with the empty list, and so does a value that
      is not an array, because its missing `sort` throws inside the `try`. */
  function GetMessages(file: DataFile): (r: seq<Record>)
    ensures file.Saved? ==> SortedDesc(r, TimeOf) && multiset(r) == multiset(file.records)
    ensures !file.Saved? ==> r == []
  {
    if file.Saved? then SortDesc(file.records, TimeOf) else []
  }

  /** A message posted later than everything already stored is the first one
      the list endpoint returns. */
  lemma PostedMessageListedFirst(file: DataFile, name: Option<string>, content: Option<string>,
                                 isoTime: int, stamp: int)
    requires Validate(name, content).None? && Stored(file).Some?
    requires forall i :: 0 <= i < |Stored(file).value| ==> Stored(file).value[i].time < isoTime
    ensures var r := PostMessage(file, name, content, isoTime, stamp, true);
      r.response.Created? && GetMessages(r.file)[0] == r.response.record
  {
    var r := PostMessage(file, name, content, isoTime, stamp, true);
    var all := Stored(file).value + [r.response.record];
    assert all[|all| - 1] == r.response.record;
    LargestFirst(all, r.response.record, TimeOf);
  }

  /** A name made only of white space passes validation and is stored as the
      empty name. */
  lemma BlankNameStoredEmpty(file: DataFile, name: string, content: Option<string>, isoTime: int, stamp: int)
    requires 1 <= |name| <= MaxNameLength && AllSpace(name)
    requires content.Some? && 1 <= |content.value| <= MaxContentLength
    requires !file.NotAList?
    ensures var r := PostMessage(file, Some(name), content, isoTime, stamp, true);
      r.response.Created? && r.response.record.name == ""
  {
    TrimEmptyIff(name);
  }

  /** Lengths are checked before trimming: with an acceptable name, content
      longer than the limit is refused whatever it trims to. */
  lemma LengthCheckedBeforeTrim(name: Option<string>, content: Option<string>)
    requires Given(name) && |name.value| <= MaxNameLength
    requires content.Some? && |content.value| > MaxContentLength
    ensures Validate(name, content) == Some(ContentTooLong)
  {
  }

  /** An instance: content that trims to a single character is still refused
      when padding takes it past the limit. */
  lemma PaddedContentRefused()
    ensures var padded := "x" + seq(MaxContentLength, _ => ' ');
      && |Trim(padded)| == 1
      && Validate(Some("reader"), Some(padded)) == Some(ContentTooLong)
  {
    var padded := "x" + seq(MaxContentLength, _ => ' ');
    assert TrimStart(padded) == padded;
    assert AllSpace(padded[1..]);
    TrimTail(padded);
  }

  /** A non-space character followed only by white space trims to itself. */
  lemma TrimTail(s: string)
    requires |s| >= 1 && !IsSpace(s[0]) && AllSpace(s[1..])
    ensures Trim(s) == s[..1]
  {
    TrimEmptyIff(s);
    TrimSpec(s);
    assert TrimOffset(s) == 0;
  }
}
