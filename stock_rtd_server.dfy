/** The real-time-data server that a spreadsheet talks to: a table from topic
    id to upper-cased topic name, a cached price snapshot, and the flag and
    callback that decide whether a new snapshot is taken over and announced. */
module StockRtd {
  import opened Wrappers

  /** The cached price snapshot. C# `decimal` is exact, so prices are reals;
      the timestamp is a nullable string. */
  datatype NvdaData = NvdaData(bidPrice: real, askPrice: real, timestamp: Option<string>, lastPrice: real)

  /** What `new NvdaData()` holds: zero prices and a null timestamp. */
  const EmptyData := NvdaData(0.0, 0.0, None, 0.0)

  /** A boxed value handed to the spreadsheet: a topic id, a price or a text. */
  datatype Cell = IntCell(id: int) | DecimalCell(amount: real) | StringCell(text: string)

  /** Stands for the spreadsheet's update-event object; `None` is a null reference. */
  type CallbackRef = nat

  const InvalidTopic := "Invalid Topic"
  const NoTopic := "No Topic"
  const NotAvailable := "N/A"

  function UpperChar(c: char): (u: char)
  {
    if 'a' <= c <= 'z' then (c as int - 32) as char else c
  }

  /** The topic-name normalisation, on ASCII letters. */
  function Upper(s: string): (r: string)
    ensures |r| == |s|
    ensures forall i :: 0 <= i < |s| ==> r[i] == UpperChar(s[i])
    ensures forall i :: 0 <= i < |r| ==> !('a' <= r[i] <= 'z')
  {
    if s == [] then [] else [UpperChar(s[0])] + Upper(s[1..])
  }

  /** Upper-casing an upper-cased name changes nothing, so every name
      ConnectData stores is already in the form Valid() asks for. */
  lemma UpperIdempotent(s: string)
    ensures Upper(Upper(s)) == Upper(s)
  {
  }

  /** The snapshot fields a topic can show. */
  datatype Field = Bid | Ask | Timestamp | Last

  /** The topic names the server knows, each with the field it shows. */
  const TopicFields: map<string, Field> :=
    map["BID" := Bid, "ASK" := Ask, "TIMESTAMP" := Timestamp, "LAST" := Last]

  /** How a field is shown: a price as a decimal, a missing timestamp as "N/A". */
  function Show(field: Field, data: NvdaData): Cell
  {
    match field
    case Bid => DecimalCell(data.bidPrice)
    case Ask => DecimalCell(data.askPrice)
    case Last => DecimalCell(data.lastPrice)
    case Timestamp => StringCell(if data.timestamp.Some? then data.timestamp.value else NotAvailable)
  }

  /** The value shown for a topic name, shared by ConnectData and RefreshData. */
  function TopicValue(name: string, data: NvdaData): (v: Cell)
    ensures !v.IntCell?
    ensures v.DecimalCell? <==> name == "BID" || name == "ASK" || name == "LAST"
    ensures name !in TopicFields ==> v == StringCell(InvalidTopic)
  {
    if name == "BID" then DecimalCell(data.bidPrice)
    else if name == "ASK" then DecimalCell(data.askPrice)
    else if name == "TIMESTAMP" then
      (match data.timestamp
       case Some(t) => StringCell(t)
       case None => StringCell(NotAvailable))
    else if name == "LAST" then DecimalCell(data.lastPrice)
    else StringCell(InvalidTopic)
  }

  /** The switch agrees with the table of known topics: a known name shows its
      field, any other name "Invalid Topic". */
  lemma TopicValueByField(name: string, data: NvdaData)
    ensures TopicValue(name, data) ==
              if name in TopicFields then Show(TopicFields[name], data) else StringCell(InvalidTopic)
  {
  }

  /** Any spelling of a known topic name selects its field: the value for a
      name depends only on the name's upper-cased form. */
  lemma KnownTopicsIgnoreCase(s: string, data: NvdaData)
    ensures Upper(s) == "BID" ==> TopicValue(Upper(s), data) == DecimalCell(data.bidPrice)
    ensures Upper(s) == "ASK" ==> TopicValue(Upper(s), data) == DecimalCell(data.askPrice)
    ensures Upper(s) == "LAST" ==> TopicValue(Upper(s), data) == DecimalCell(data.lastPrice)
    ensures Upper(s) == "TIMESTAMP" && data.timestamp == None ==> TopicValue(Upper(s), data) == StringCell(NotAvailable)
    ensures Upper(s) == "TIMESTAMP" && data.timestamp.Some? ==> TopicValue(Upper(s), data) == StringCell(data.timestamp.value)
    ensures Upper(s) !in {"BID", "ASK", "LAST", "TIMESTAMP"} ==> TopicValue(Upper(s), data) == StringCell(InvalidTopic)
  {
  }

  /** The change test: a field-by-field comparison of the four fields. */
  function HasDataChanged(newData: NvdaData, lastData: NvdaData): (changed: bool)
    ensures changed <==> newData != lastData
  {
    newData.bidPrice != lastData.bidPrice ||
    newData.askPrice != lastData.askPrice ||
    newData.lastPrice != lastData.lastPrice ||
    newData.timestamp != lastData.timestamp
  }

  /** The part of the server's state that the update path reads and writes;
      `notified` lists, in order, the callbacks that received UpdateNotify. */
  datatype UpdateState = UpdateState(lastData: NvdaData, isActive: bool, callback: Option<CallbackRef>, notified: seq<CallbackRef>)

  function AfterServerStart(u: UpdateState, callbackObject: Option<CallbackRef>): UpdateState
  {
    u.(isActive := true, callback := callbackObject)
  }

  function AfterServerTerminate(u: UpdateState): UpdateState
  {
    u.(isActive := false, callback := None)
  }

  /** One run of the periodic update check, given what the data file yielded
      (`None`: no file, an unreadable file, a null deserialisation, or an
      exception before the comparison). */
  function AfterCheck(u: UpdateState, fileData: Option<NvdaData>): (r: UpdateState)
    ensures r.isActive == u.isActive && r.callback == u.callback
    ensures r.notified != u.notified <==> r.lastData != u.lastData
    ensures r.lastData == u.lastData ==> r == u
    ensures r.lastData != u.lastData ==>
              u.isActive && u.callback.Some? && fileData == Some(r.lastData) &&
              r.notified == u.notified + [u.callback.value]
    ensures u.isActive && u.callback.Some? && fileData.Some? ==> r.lastData == fileData.value
  {
    if !u.isActive || u.callback.None? then u
    else
      match fileData
      case None => u
      case Some(newData) =>
        if HasDataChanged(newData, u.lastData)
        then u.(lastData := newData, notified := u.notified + [u.callback.value])
        else u
  }

  /** Successive timer ticks, each reading one file outcome. */
  function AfterChecks(u: UpdateState, feed: seq<Option<NvdaData>>): UpdateState
    decreases |feed|
  {
    if feed == [] then u else AfterChecks(AfterCheck(u, feed[0]), feed[1..])
  }

  /** Seeing the same file contents twice announces them at most once. */
  lemma CheckRepeated(u: UpdateState, fileData: Option<NvdaData>)
    ensures AfterCheck(AfterCheck(u, fileData), fileData) == AfterCheck(u, fileData)
  {
  }

  /** While inactive or without a callback, ticks change nothing. */
  lemma {:induction false} ChecksWhileDisabled(u: UpdateState, feed: seq<Option<NvdaData>>)
    requires !u.isActive || u.callback.None?
    ensures AfterChecks(u, feed) == u
    decreases |feed|
  {
    if feed != [] {
      ChecksWhileDisabled(AfterCheck(u, feed[0]), feed[1..]);
    }
  }

  /** Once the server is terminated, no later tick replaces the snapshot or
      notifies anyone. */
  lemma ChecksAfterTerminate(u: UpdateState, feed: seq<Option<NvdaData>>)
    ensures AfterChecks(AfterServerTerminate(u), feed) == AfterServerTerminate(u)
  {
  }

  /** Over any sequence of ticks: the cached snapshot is the initial one or one
      that was read from the file; notifications are only appended, at most
      one per tick, all to the registered callback; and without a notification
      the snapshot is unchanged. */
  lemma {:induction false} ChecksProvenance(u: UpdateState, feed: seq<Option<NvdaData>>)
    ensures AfterChecks(u, feed).isActive == u.isActive
    ensures AfterChecks(u, feed).callback == u.callback
    ensures AfterChecks(u, feed).lastData == u.lastData || Some(AfterChecks(u, feed).lastData) in feed
    ensures |u.notified| <= |AfterChecks(u, feed).notified| <= |u.notified| + |feed|
    ensures AfterChecks(u, feed).notified[..|u.notified|] == u.notified
    ensures forall k :: |u.notified| <= k < |AfterChecks(u, feed).notified| ==>
              Some(AfterChecks(u, feed).notified[k]) == u.callback
    ensures AfterChecks(u, feed).notified == u.notified ==> AfterChecks(u, feed).lastData == u.lastData
    decreases |feed|
  {
    if feed != [] {
      var v := AfterCheck(u, feed[0]);
      ChecksProvenance(v, feed[1..]);
      var r := AfterChecks(v, feed[1..]);
      assert r == AfterChecks(u, feed);
      assert v.notified[..|u.notified|] == u.notified;
      assert r.notified[..|u.notified|] == r.notified[..|v.notified|][..|u.notified|];
      assert feed == [feed[0]] + feed[1..];
    }
  }

  /** A non-empty set has an element (the loop in RefreshData picks one). */
  lemma ElementOfNonEmpty(s: set<int>)
    requires s != {}
    ensures exists k :: k in s
  {
    if forall k :: k !in s {
      assert false;
    }
  }

  class StockRtdServer {
    var topics: map<int, string>
    var lastData: NvdaData
    var isActive: bool
    var callback: Option<CallbackRef>
    var notified: seq<CallbackRef>

    /** Every name in the topic table is already upper-cased. */
    ghost predicate Valid()
      reads this`topics
    {
      forall id :: id in topics ==> Upper(topics[id]) == topics[id]
    }

    function Updates(): UpdateState
      reads this`lastData, this`isActive, this`callback, this`notified
    {
      UpdateState(lastData, isActive, callback, notified)
    }

    constructor ()
      ensures Valid() && topics == map[]
      ensures Updates() == UpdateState(EmptyData, false, None, [])
    {
      topics := map[];
      lastData := EmptyData;
      isActive := false;
      callback := None;
      notified := [];
    }

    method ServerStart(callbackObject: Option<CallbackRef>) returns (r: int)
      modifies this`isActive, this`callback
      ensures r == 1
      ensures Updates() == AfterServerStart(old(Updates()), callbackObject)
    {
      callback := callbackObject;
      isActive := true;
      r := 1;
    }

    /** `strings` are the spreadsheet's topic arguments; `getNewValuesIn` is
        the incoming value of the by-reference flag. */
    method ConnectData(topicId: int, strings: seq<string>, getNewValuesIn: bool) returns (value: Cell, getNewValues: bool)
      requires Valid()
      modifies this`topics
      ensures Valid()
      ensures |strings| > 0 ==>
                topics == old(topics)[topicId := Upper(strings[0])] &&
                value == TopicValue(Upper(strings[0]), lastData) &&
                getNewValues == getNewValuesIn
      ensures |strings| == 0 ==>
                topics == old(topics) && value == StringCell(NoTopic) && !getNewValues
    {
      getNewValues := getNewValuesIn;
      if |strings| > 0 {
        var topicName := Upper(strings[0]);
        UpperIdempotent(strings[0]);
        topics := topics[topicId := topicName];
        value := TopicValue(topicName, lastData);
        return;
      }
      getNewValues := false;
      value := StringCell(NoTopic);
    }

    method DisconnectData(topicId: int)
      requires Valid()
      modifies this`topics
      ensures Valid()
      ensures topicId !in topics
      ensures topicId !in old(topics) ==> topics == old(topics)
      ensures forall id :: id in old(topics) && id != topicId ==> id in topics && topics[id] == old(topics)[id]
      ensures topics.Keys == old(topics).Keys - {topicId}
    {
      if topicId in topics {
        topics := topics - {topicId};
      }
    }

    method Heartbeat() returns (r: int)
      ensures r == 1
    {
      r := 1;
    }

    /** Returns the 2-by-Count array (ids in row 0, values in row 1) and the
        topic count; the column order is whatever order the table yields. */
    method RefreshData() returns (data: array2?<Cell>, topicCount: int)
      requires Valid()
      ensures topicCount == |topics|
      ensures data == null <==> |topics| == 0
      ensures data != null ==> fresh(data)
      ensures data != null ==> data.Length0 == 2 && data.Length1 == |topics|
      ensures data != null ==>
                forall j :: 0 <= j < data.Length1 ==>
                  data[0, j].IntCell? && data[0, j].id in topics &&
                  data[1, j] == TopicValue(topics[data[0, j].id], lastData) &&
                  data[1, j] == TopicValue(Upper(topics[data[0, j].id]), lastData)
      ensures data != null ==>
                forall j, k :: 0 <= j < k < data.Length1 ==> data[0, j] != data[0, k]
      ensures data != null ==>
                forall id :: id in topics ==> exists j :: 0 <= j < data.Length1 && data[0, j] == IntCell(id)
    {
      if |topics| == 0 {
        topicCount := 0;
        return null, topicCount;
      }
      var table, snapshot := topics, lastData;
      var n := |table|;
      var a := new Cell[2, n];
      var remaining := table.Keys;
      var index := 0;
      // done lists the ids placed so far; position[id] is the column of id
      ghost var done: seq<int> := [];
      ghost var position: map<int, nat> := map[];
      while remaining != {}
        invariant 0 <= index <= n && index == |done|
        invariant |remaining| + index == n
        invariant position.Keys == table.Keys - remaining && remaining <= table.Keys
        invariant forall j :: 0 <= j < index ==> done[j] in position && position[done[j]] == j
        invariant forall id :: id in position ==> position[id] < index && done[position[id]] == id
        invariant forall j :: 0 <= j < index ==> a[0, j] == IntCell(done[j])
        invariant forall j :: 0 <= j < index ==> a[1, j] == TopicValue(table[done[j]], snapshot)
        decreases remaining
      {
        ElementOfNonEmpty(remaining);
        var key :| key in remaining;
        a[0, index] := IntCell(key);
        a[1, index] := TopicValue(table[key], snapshot);
        done := done + [key];
        position := position[key := index];
        remaining := remaining - {key};
        index := index + 1;
      }
      forall id | id in table
        ensures exists j :: 0 <= j < n && a[0, j] == IntCell(id)
      {
        assert a[0, position[id]] == IntCell(id);
      }
      topicCount := n;
      data := a;
    }

    method ServerTerminate()
      modifies this`isActive, this`callback
      ensures Updates() == AfterServerTerminate(old(Updates()))
    {
      isActive := false;
      callback := None;
    }

    /** The timer's callback, after the file has been read into `fileData`. */
    method CheckForUpdates(fileData: Option<NvdaData>)
      modifies this`lastData, this`notified
      ensures Updates() == AfterCheck(old(Updates()), fileData)
    {
      if !isActive || callback.None? {
        return;
      }
      if fileData.Some? && HasDataChanged(fileData.value, lastData) {
        lastData := fileData.value;
        notified := notified + [callback.value];
      }
    }
  }
}
