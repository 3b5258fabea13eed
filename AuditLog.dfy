/** `log_status_line`: the JSON log of status-line events, kept as a list of
    entries that each run extends by one. */
module AuditLog {
  import opened Wrappers
  import opened StatusLine

  /** One event as the script records it. */
  datatype LogEntry = LogEntry(timestamp: string, input: Snapshot, output: string)

  /** An element of the logged list: an entry this script wrote, or any
      other JSON value someone else put there. */
  datatype LogItem = Entry(entry: LogEntry) | Foreign

  /** The JSON value a log file that decodes holds: a list, or any other value. */
  datatype LogDocument = ItemList(items: seq<LogItem>) | NonList

  /** The state of the log file before a run. */
  datatype LogFile = Missing | Undecodable | Decoded(doc: LogDocument)

  /** The list the script starts from: the decoded list, or a fresh empty list
      when the file is missing or does not decode; nothing when the file holds
      a JSON value that is not a list, whose `append` raises. */
  function StartingList(file: LogFile): (r: Option<seq<LogItem>>)
    ensures r.None? <==> file == Decoded(NonList)
    ensures file.Decoded? && file.doc.ItemList? ==> r == Some(file.doc.items)
    ensures file.Missing? || file.Undecodable? ==> r == Some([])
  {
    match file
    case Missing => Some([])
    case Undecodable => Some([])
    case Decoded(ItemList(items)) => Some(items)
    case Decoded(NonList) => None
  }

  /** Whether logging raises instead of writing the file. */
  predicate Raises(file: LogFile) {
    StartingList(file).None?
  }

  /** The file after one logged event: the starting list with the entry appended. */
  function UpdatedLog(file: LogFile, entry: LogEntry): (r: Option<LogFile>)
    ensures r.None? <==> Raises(file)
  {
    match StartingList(file)
    case Some(items) => Some(Decoded(ItemList(items + [Entry(entry)])))
    case None => None
  }

  /** A list in the log grows by exactly one entry at its end, and the
      entries before it are kept as they were. */
  lemma UpdatedLogAppends(items: seq<LogItem>, entry: LogEntry)
    ensures var r := UpdatedLog(Decoded(ItemList(items)), entry);
      r.Some? && r.value.Decoded? && r.value.doc.ItemList? &&
      |r.value.doc.items| == |items| + 1 &&
      r.value.doc.items[..|items|] == items &&
      r.value.doc.items[|items|] == Entry(entry)
  {
  }

  /** The updated list holds the new entry alone exactly when the file was
      missing, did not decode, or held an empty list: earlier entries are
      dropped only in the first two cases. */
  lemma UpdatedLogResets(file: LogFile, entry: LogEntry)
    requires !Raises(file)
    ensures UpdatedLog(file, entry) == Some(Decoded(ItemList([Entry(entry)]))) <==>
      file.Missing? || file.Undecodable? || file == Decoded(ItemList([]))
  {
    if file.Decoded? {
      var items := file.doc.items;
      if UpdatedLog(file, entry) == Some(Decoded(ItemList([Entry(entry)]))) {
        assert |items + [Entry(entry)]| == 1;
      }
      if items == [] {
        assert items + [Entry(entry)] == [Entry(entry)];
      }
    } else {
      assert [] + [Entry(entry)] == [Entry(entry)];
    }
  }

  /** A successful update always changes the file. */
  lemma UpdatedLogChanges(file: LogFile, entry: LogEntry)
    requires !Raises(file)
    ensures UpdatedLog(file, entry).value != file
  {
    if file.Decoded? {
      var items := file.doc.items;
      assert |items + [Entry(entry)]| != |items|;
    }
  }

  /** The log file as the program sees it. */
  class LogStore {
    var file: LogFile

    constructor(file: LogFile)
      ensures this.file == file
    {
      this.file := file;
    }

    /** `log_status_line`: reads the list (or starts an empty one), appends
        the entry and writes the list back. When the file holds a JSON value
        that is not a list, the append raises: `raised` is set and the file is
        left untouched. */
    method LogStatusLine(input: Snapshot, output: string, timestamp: string) returns (raised: bool)
      modifies this
      ensures raised <==> Raises(old(file))
      ensures raised ==> file == old(file)
      ensures !raised ==> Some(file) == UpdatedLog(old(file), LogEntry(timestamp, input, output))
    {
      var logData: seq<LogItem>;
      match file {
        case Missing =>
          logData := [];
        case Undecodable =>
          logData := [];
        case Decoded(ItemList(items)) =>
          logData := items;
        case Decoded(NonList) =>
          return true;
      }
      var logEntry := LogEntry(timestamp, input, output);
      logData := logData + [Entry(logEntry)];
      file := Decoded(ItemList(logData));
      raised := false;
    }
  }
}
