/**
 * The `anomalies` table of utils/database: building a row from an event
 * (`insert_anomaly`) and finding the stored score of an event
 * (`check_event_exists`). The table is a sequence of rows in the order a
 * query scans them; sessions, the pool and SQL execution are abstracted.
 */
module Database {
  import opened Wrappers
  import opened Json

  /** One row of `anomalies`; columns hold the JSON values bound to them. */
  datatype Row = Row(
    requestId: Json,
    eventId: Json,
    roleId: Json,
    eventType: Json,
    eventTimestamp: Json,
    affectedAssets: Json,
    anomalyScore: real)

  /** Why `insert_anomaly` raised before reaching the database, or that the database refused. */
  datatype InsertError =
    | MissingField(key: string)   // KeyError on `event_data[key]`
    | NotAMapping                 // TypeError: the event is not a dictionary
    | AssetNotAString             // TypeError from `','.join` on a non-string item
    | DatabaseError               // `execute` or `commit` raised

  /** The text stored for an empty asset collection. */
  const EmptyAssets: string := "{}"

  /** Python's `','.join(parts)`. */
  function Join(parts: seq<string>): string
  {
    if |parts| == 0 then ""
    else if |parts| == 1 then parts[0]
    else parts[0] + "," + Join(parts[1..])
  }

  /** Python's `s.split(',')`: the inverse of `Join` on comma-free parts. */
  function Split(s: string): (parts: seq<string>)
    ensures |parts| >= 1
  {
    if |s| == 0 then [""]
    else if s[0] == ',' then [""] + Split(s[1..])
    else
      var rest := Split(s[1..]);
      [[s[0]] + rest[0]] + rest[1..]
  }

  /** The items of a list when every one is a string, else `None`. */
  function AllStrings(items: seq<Json>): (r: Option<seq<string>>)
    ensures r.Some? <==> forall i :: 0 <= i < |items| ==> items[i].JStr?
    ensures r.Some? ==> |r.value| == |items| && forall i :: 0 <= i < |items| ==> items[i] == JStr(r.value[i])
  {
    if |items| == 0 then Some([])
    else match items[0]
      case JStr(s) =>
        (match AllStrings(items[1..])
         case Some(rest) => Some([s] + rest)
         case None => None)
      case _ => None
  }

  /**
   * The `AffectedAssets` normaliser. `stored` is what `event_data.get` found
   * (`None` when the key is absent, in which case the default `'{}'` is used).
   * Null and the empty string become `'{}'`; a list of strings becomes
   * `'{'` + comma-join + `'}'` (a list with a non-string item makes the join
   * raise); every other value is kept as it is.
   */
  function NormaliseAssets(stored: Option<Json>): (r: Result<Json, InsertError>)
    ensures stored == None || stored == Some(JNull) || stored == Some(JStr("")) ==> r == Ok(JStr(EmptyAssets))
    ensures stored.Some? && !stored.value.JNull? && stored.value != JStr("") && !stored.value.JArr? ==> r == Ok(stored.value)
    ensures stored.Some? && stored.value.JArr? ==>
              (r.Ok? <==> forall i :: 0 <= i < |stored.value.items| ==> stored.value.items[i].JStr?)
    ensures r.Err? ==> r.error == AssetNotAString
  {
    var assets := if stored.None? then JStr(EmptyAssets) else stored.value;
    match assets
    case JNull => Ok(JStr(EmptyAssets))
    case JStr(s) => if s == "" then Ok(JStr(EmptyAssets)) else Ok(assets)
    case JArr(items) =>
      (match AllStrings(items)
       case Some(parts) => Ok(JStr("{" + Join(parts) + "}"))
       case None => Err(AssetNotAString))
    case _ => Ok(assets)
  }

  /**
   * The row `insert_anomaly` binds to its INSERT: the five fields read in
   * source order (the first missing one raises KeyError), the normalised
   * assets, and the score. Database failure is not decided here.
   */
  function InsertAnomaly(event: Json, score: real): (r: Result<Row, InsertError>)
    ensures r.Ok? <==>
              && event.JObj?
              && (forall k :: k in RowFields ==> k in event.fields)
              && NormaliseAssets(Subscript(event, "AffectedAssets")).Ok?
    ensures r.Ok? ==>
              && r.value.requestId == event.fields["RequestID"]
              && r.value.eventId == event.fields["EventID"]
              && r.value.roleId == event.fields["RoleID"]
              && r.value.eventType == event.fields["EventType"]
              && r.value.eventTimestamp == event.fields["EventTimestamp"]
              && r.value.anomalyScore == score
              && Ok(r.value.affectedAssets) == NormaliseAssets(Subscript(event, "AffectedAssets"))
    ensures r.Err? && event.JObj? && RowFields !! event.fields.Keys ==> r.error == MissingField("RequestID")
  {
    match event
    case JObj(fields) =>
      if "RequestID" !in fields then Err(MissingField("RequestID"))
      else if "EventID" !in fields then Err(MissingField("EventID"))
      else if "RoleID" !in fields then Err(MissingField("RoleID"))
      else if "EventType" !in fields then Err(MissingField("EventType"))
      else if "EventTimestamp" !in fields then Err(MissingField("EventTimestamp"))
      else
        (match NormaliseAssets(Subscript(event, "AffectedAssets"))
         case Ok(assets) =>
           Ok(Row(fields["RequestID"], fields["EventID"], fields["RoleID"],
                  fields["EventType"], fields["EventTimestamp"], assets, score))
         case Err(e) => Err(e))
    case _ => Err(NotAMapping)
  }

  /** The fields `insert_anomaly` subscripts directly. */
  const RowFields: set<string> := {"RequestID", "EventID", "RoleID", "EventType", "EventTimestamp"}

  /** A committed INSERT appends its row to the table. */
  function Append(table: seq<Row>, row: Row): seq<Row>
  {
    table + [row]
  }

  /**
   * `check_event_exists`: the score of the first row whose `event_id`
   * equals `eventId`, or `None` when no row matches.
   */
  function CheckEventExists(table: seq<Row>, eventId: Json): (score: Option<real>)
    ensures score.None? <==> forall i :: 0 <= i < |table| ==> table[i].eventId != eventId
    ensures score.Some? ==>
              exists i :: && 0 <= i < |table|
                          && table[i].eventId == eventId
                          && table[i].anomalyScore == score.value
                          && forall j :: 0 <= j < i ==> table[j].eventId != eventId
  {
    if |table| == 0 then None
    else if table[0].eventId == eventId then Some(table[0].anomalyScore)
    else
      var rest := CheckEventExists(table[1..], eventId);
      assert forall i :: 1 <= i < |table| ==> table[i] == table[1..][i - 1];
      rest
  }

  /** A string with no comma splits into itself alone. */
  lemma {:induction false} SplitCommaFree(a: string)
    requires ',' !in a
    ensures Split(a) == [a]
  {
    if |a| > 0 {
      assert ',' !in a[1..] by { assert forall k :: 0 <= k < |a[1..]| ==> a[1..][k] == a[k + 1]; }
      SplitCommaFree(a[1..]);
      assert [a[0]] + a[1..] == a;
    }
  }

  /** Splitting stops at the first comma: a comma-free head comes off whole. */
  lemma {:induction false} SplitAtComma(a: string, b: string)
    requires ',' !in a
    ensures Split(a + "," + b) == [a] + Split(b)
  {
    if |a| == 0 {
      assert a + "," + b == [','] + b;
      assert (a + "," + b)[1..] == b;
    } else {
      assert ',' !in a[1..] by { assert forall k :: 0 <= k < |a[1..]| ==> a[1..][k] == a[k + 1]; }
      assert (a + "," + b)[1..] == a[1..] + "," + b;
      SplitAtComma(a[1..], b);
      assert [a[0]] + a[1..] == a;
    }
  }

  /**
   * The stored asset text can be read back: for a non-empty list of
   * comma-free asset ids, splitting the joined text yields the list again.
   */
  lemma {:induction false} SplitJoin(parts: seq<string>)
    requires |parts| >= 1
    requires forall i :: 0 <= i < |parts| ==> ',' !in parts[i]
    ensures Split(Join(parts)) == parts
  {
    if |parts| == 1 {
      SplitCommaFree(parts[0]);
    } else {
      SplitJoin(parts[1..]);
      SplitAtComma(parts[0], Join(parts[1..]));
      assert [parts[0]] + parts[1..] == parts;
    }
  }

  /**
   * A list of asset ids is stored as `'{'`, the comma-joined ids and `'}'`:
   * the braces enclose exactly the joined text, an empty list gives `'{}'`,
   * and a non-empty list of comma-free ids is recoverable from the text.
   */
  lemma ListAssetsStored(ids: seq<string>)
    ensures var r := NormaliseAssets(Some(JArr(seq(|ids|, i requires 0 <= i < |ids| => JStr(ids[i])))));
            && r.Ok? && r.value.JStr?
            && |r.value.s| >= 2 && r.value.s[0] == '{' && r.value.s[|r.value.s| - 1] == '}'
            && r.value.s[1..|r.value.s| - 1] == Join(ids)
            && (|ids| == 0 ==> r.value.s == EmptyAssets)
            && (|ids| >= 1 && (forall i :: 0 <= i < |ids| ==> ',' !in ids[i]) ==>
                  Split(r.value.s[1..|r.value.s| - 1]) == ids)
  {
    var items := seq(|ids|, i requires 0 <= i < |ids| => JStr(ids[i]));
    var parts := AllStrings(items);
    assert parts.Some?;
    assert parts.value == ids;
    var text := "{" + Join(ids) + "}";
    assert text[1..|text| - 1] == Join(ids);
    if |ids| >= 1 && (forall i :: 0 <= i < |ids| ==> ',' !in ids[i]) {
      SplitJoin(ids);
    }
  }

  /**
   * Effect of a committed INSERT on later lookups: an event that already had
   * a row keeps its first row's score, and an event that had none now finds
   * the inserted score. In particular, after inserting a row for an event,
   * `check_event_exists` for that event no longer returns `None`.
   */
  lemma {:induction false} LookupAfterInsert(table: seq<Row>, row: Row, eventId: Json)
    ensures CheckEventExists(Append(table, row), eventId) ==
              if CheckEventExists(table, eventId).Some? then CheckEventExists(table, eventId)
              else if row.eventId == eventId then Some(row.anomalyScore)
              else None
  {
    if |table| > 0 && table[0].eventId != eventId {
      LookupAfterInsert(table[1..], row, eventId);
      assert Append(table, row)[1..] == Append(table[1..], row);
    }
  }
}
