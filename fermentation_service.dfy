/**
 * The fermentation service (backend/app/services/fermentation_service.py): MQTT readings are
 * matched against the topic pattern and buffered per tank; a periodic flush turns every tank
 * holding all three variables into a stored reading; tanks get profiles; the history query
 * returns the latest readings of a tank.
 *
 * The buffer is an insertion-ordered dictionary, modelled as a sequence of entries with distinct
 * tank ids. The two tables the service writes (tanks and readings) are fields of the service.
 */
module FermentationService {
  import opened Common
  import opened Text
  import opened Seqs

  // ---- Topics ----

  datatype Variable = Temperature | Pressure | Co2

  function VarName(v: Variable): string {
    match v
    case Temperature => "temperature"
    case Pressure => "pressure"
    case Co2 => "co2"
  }

  /** The alternation `temperature|pressure|co2`. */
  function ParseVariable(s: string): (r: Option<Variable>)
    ensures forall v :: r == Some(v) <==> s == VarName(v)
  {
    if s == "temperature" then Some(Temperature)
    else if s == "pressure" then Some(Pressure)
    else if s == "co2" then Some(Co2)
    else None
  }

  const Prefix: string := "brewpi/fermentation/"

  /** `TOPIC_REGEX` matches the whole of `topic` with groups `tank_id` and `var`. */
  ghost predicate TopicPattern(topic: string, tankId: string, v: Variable) {
    && tankId != ""
    && '/' !in tankId
    && topic == Prefix + tankId + "/" + VarName(v)
  }

  /** The prefix removed and the rest cut at its first slash: `(id, var)` when the id is non-empty. */
  function SplitTopic(topic: string): Option<(string, string)> {
    if |topic| < |Prefix| || topic[..|Prefix|] != Prefix then None
    else
      var rest := topic[|Prefix|..];
      var k := FirstIndex(rest, '/');
      if k <= 0 then None else Some((rest[..k], rest[k + 1..]))
  }

  /** `TOPIC_REGEX.fullmatch(topic)`: the id runs from the prefix to the first slash after it. */
  function MatchTopic(topic: string): Option<(string, Variable)> {
    match SplitTopic(topic)
    case None => None
    case Some((id, name)) =>
      match ParseVariable(name)
      case None => None
      case Some(v) => Some((id, v))
  }

  /** A topic is accepted with a given id and variable exactly when it is spelled by the pattern. */
  lemma MatchTopicExact(topic: string, tankId: string, v: Variable)
    ensures MatchTopic(topic) == Some((tankId, v)) <==> TopicPattern(topic, tankId, v)
  {
    if MatchTopic(topic) == Some((tankId, v)) {
      SplitTopicSound(topic);
    }
    if TopicPattern(topic, tankId, v) {
      SplitTopicComplete(tankId, VarName(v));
    }
  }

  lemma SplitTopicSound(topic: string)
    requires SplitTopic(topic).Some?
    ensures var (id, name) := SplitTopic(topic).value;
      id != "" && '/' !in id && topic == Prefix + id + "/" + name
  {
    var rest := topic[|Prefix|..];
    PrefixThenRest(topic, Prefix);
    SplitAtFirstSlash(rest);
    var k := FirstIndex(rest, '/');
    ConcatAssoc(Prefix, rest[..k], rest[k + 1..]);
  }

  lemma PrefixThenRest(s: string, p: string)
    requires |p| <= |s| && s[..|p|] == p
    ensures s == p + s[|p|..]
  {
  }

  lemma ConcatAssoc(p: string, id: string, name: string)
    ensures p + (id + "/" + name) == p + id + "/" + name
  {
  }

  /** Cutting at the first slash gives a slash-free head. */
  lemma SplitAtFirstSlash(rest: string)
    requires FirstIndex(rest, '/') > 0
    ensures var k := FirstIndex(rest, '/');
      rest == rest[..k] + "/" + rest[k + 1..] && '/' !in rest[..k]
  {
    var k := FirstIndex(rest, '/');
    assert rest[..k] + [rest[k]] + rest[k + 1..] == rest;
    assert '/' !in rest[..k] by {
      assert forall i :: 0 <= i < k ==> rest[..k][i] == rest[i];
    }
  }

  lemma SplitTopicComplete(tankId: string, name: string)
    requires tankId != "" && '/' !in tankId
    ensures SplitTopic(Prefix + tankId + "/" + name) == Some((tankId, name))
  {
    var topic := Prefix + tankId + "/" + name;
    var rest := tankId + "/" + name;
    assert topic[..|Prefix|] == Prefix && topic[|Prefix|..] == rest by {
      assert topic == Prefix + rest;
    }
    FirstSlash(tankId, name);
  }

  /** The first slash after a slash-free id is the one that ends it. */
  lemma FirstSlash(id: string, tail: string)
    requires '/' !in id
    ensures FirstIndex(id + "/" + tail, '/') == |id|
    ensures (id + "/" + tail)[..|id|] == id && (id + "/" + tail)[|id| + 1..] == tail
  {
    var s := id + "/" + tail;
    assert s[|id|] == '/';
    assert forall i :: 0 <= i < |id| ==> s[i] == id[i];
  }

  // ---- The buffer ----

  /** One buffered tank: `{var: value}` for the variables received since its last flush. */
  datatype Entry = Entry(tank: string, values: map<Variable, real>)

  predicate DistinctTanks(buf: seq<Entry>) {
    forall i, j :: 0 <= i < j < |buf| ==> buf[i].tank != buf[j].tank
  }

  /** The position of the entry for `id`, or -1. */
  function IndexOfTank(buf: seq<Entry>, id: string): (r: int)
    ensures -1 <= r < |buf|
    ensures r >= 0 ==> buf[r].tank == id && forall i :: 0 <= i < r ==> buf[i].tank != id
    ensures r == -1 ==> forall i :: 0 <= i < |buf| ==> buf[i].tank != id
  {
    if buf == [] then -1
    else if buf[0].tank == id then 0
    else
      var t := IndexOfTank(buf[1..], id);
      assert forall i :: 1 <= i < |buf| ==> buf[i] == buf[1..][i - 1];
      if t == -1 then -1 else t + 1
  }

  /** `buffer.get(id)`. */
  function Lookup(buf: seq<Entry>, id: string): Option<map<Variable, real>> {
    var k := IndexOfTank(buf, id);
    if k == -1 then None else Some(buf[k].values)
  }

  /** `buffer.setdefault(id, {})[v] = x`: update in place, or append a fresh entry. */
  function SetValue(buf: seq<Entry>, id: string, v: Variable, x: real): seq<Entry> {
    var k := IndexOfTank(buf, id);
    if k == -1 then buf + [Entry(id, map[v := x])]
    else buf[k := Entry(id, buf[k].values[v := x])]
  }

  /**
   * After `SetValue`, the tank holds `x` for `v` on top of what it held before; every other
   * entry keeps its place and its values; ids stay distinct.
   */
  lemma SetValueEffect(buf: seq<Entry>, id: string, v: Variable, x: real)
    requires DistinctTanks(buf)
    ensures var r := SetValue(buf, id, v, x);
      && DistinctTanks(r)
      && Lookup(r, id) == Some((if Lookup(buf, id).Some? then Lookup(buf, id).value else map[])[v := x])
      && (forall other :: other != id ==> Lookup(r, other) == Lookup(buf, other))
      && |buf| <= |r| <= |buf| + 1
      && (forall i :: 0 <= i < |buf| && buf[i].tank != id ==> r[i] == buf[i])
  {
    var r := SetValue(buf, id, v, x);
    var k := IndexOfTank(buf, id);
    assert forall i :: 0 <= i < |r| ==> r[i].tank == (if i < |buf| then buf[i].tank else id);
    assert DistinctTanks(r);
    forall other | other != id ensures Lookup(r, other) == Lookup(buf, other) {
      var kb := IndexOfTank(buf, other);
      var kr := IndexOfTank(r, other);
      if kb == -1 {
        assert kr == -1;
      } else {
        assert kr == kb;
      }
    }
    var kr := IndexOfTank(r, id);
    if k == -1 {
      assert r[|buf|].tank == id;
      assert kr == |buf|;
    } else {
      assert r[k].tank == id;
      assert kr == k;
    }
  }

  /** The byte payload decoded and read as a float, or `None` when `float(payload.decode())` fails. */
  type PayloadParser = seq<Byte> -> Option<real>

  /** `_mqtt_listener` on the buffer. */
  function Ingest(buf: seq<Entry>, topic: string, payload: seq<Byte>, parse: PayloadParser): seq<Entry> {
    match MatchTopic(topic)
    case None => buf
    case Some((id, v)) =>
      match parse(payload)
      case None => buf
      case Some(x) => SetValue(buf, id, v, x)
  }

  /**
   * A message changes the buffer only when its topic matches the pattern and its payload parses;
   * then it sets exactly that tank's variable.
   */
  lemma IngestEffect(buf: seq<Entry>, topic: string, payload: seq<Byte>, parse: PayloadParser)
    requires DistinctTanks(buf)
    ensures (forall id, v :: !TopicPattern(topic, id, v)) ==> Ingest(buf, topic, payload, parse) == buf
    ensures parse(payload).None? ==> Ingest(buf, topic, payload, parse) == buf
    ensures forall id, v :: TopicPattern(topic, id, v) && parse(payload).Some? ==>
              Ingest(buf, topic, payload, parse) == SetValue(buf, id, v, parse(payload).value)
    ensures DistinctTanks(Ingest(buf, topic, payload, parse))
  {
    TopicsMatched(topic);
    if MatchTopic(topic).Some? && parse(payload).Some? {
      SetValueEffect(buf, MatchTopic(topic).value.0, MatchTopic(topic).value.1, parse(payload).value);
    }
  }

  /** The matcher returns the pattern's unique reading of the topic, or nothing when there is none. */
  lemma TopicsMatched(topic: string)
    ensures MatchTopic(topic).None? ==> forall id, v :: !TopicPattern(topic, id, v)
    ensures MatchTopic(topic).Some? ==> forall id, v :: TopicPattern(topic, id, v) <==> MatchTopic(topic).value == (id, v)
  {
    forall id, v ensures TopicPattern(topic, id, v) <==> MatchTopic(topic) == Some((id, v)) {
      MatchTopicExact(topic, id, v);
    }
  }

  // ---- Flushing ----

  /** A tracked tank. */
  datatype Tank = Tank(id: string, name: string, profile: Option<string>)

  type Timestamp = int

  /** A stored reading. */
  datatype Reading = Reading(tankId: string, timestamp: Timestamp, temperature: real, pressure: real, co2: real)

  /** `{"temperature", "pressure", "co2"}.issubset(values.keys())`. */
  predicate IsComplete(e: Entry) {
    Temperature in e.values && Pressure in e.values && Co2 in e.values
  }

  function ReadingOf(e: Entry, now: Timestamp): Reading
    requires IsComplete(e)
  {
    Reading(e.tank, now, e.values[Temperature], e.values[Pressure], e.values[Co2])
  }

  /** The readings a flush of `buf` at `now` stores, in buffer order. */
  function FlushReadings(buf: seq<Entry>, now: Timestamp): seq<Reading> {
    if buf == [] then []
    else
      var last := buf[|buf| - 1];
      FlushReadings(buf[..|buf| - 1], now) + (if IsComplete(last) then [ReadingOf(last, now)] else [])
  }

  /** The entries a flush of `buf` leaves in the buffer. */
  function Remaining(buf: seq<Entry>): seq<Entry> {
    if buf == [] then []
    else
      var last := buf[|buf| - 1];
      Remaining(buf[..|buf| - 1]) + (if IsComplete(last) then [] else [last])
  }

  /** The tank table after a flush of `buf`: missing tanks of complete entries are created, named by id. */
  function WithTanks(tanks: map<string, Tank>, buf: seq<Entry>): map<string, Tank> {
    if buf == [] then tanks
    else
      var last := buf[|buf| - 1];
      var before := WithTanks(tanks, buf[..|buf| - 1]);
      if IsComplete(last) && last.tank !in before then before[last.tank := Tank(last.tank, last.tank, None)]
      else before
  }

  /** The stored readings correspond one to one, in order, to the complete entries, carrying their values. */
  lemma {:induction false} FlushReadingsExact(buf: seq<Entry>, now: Timestamp)
    ensures var rs := FlushReadings(buf, now);
      && (forall r :: r in rs <==> exists i :: 0 <= i < |buf| && IsCompleteAt(buf, i) && r == ReadingOf(buf[i], now))
      && |rs| + |Remaining(buf)| == |buf|
  {
    if buf != [] {
      var init := buf[..|buf| - 1];
      FlushReadingsExact(init, now);
      assert forall i :: 0 <= i < |init| ==> init[i] == buf[i];
      forall r ensures r in FlushReadings(buf, now) <==>
                       exists i :: 0 <= i < |buf| && IsCompleteAt(buf, i) && r == ReadingOf(buf[i], now)
      {
        if r in FlushReadings(init, now) {
          var i :| 0 <= i < |init| && IsCompleteAt(init, i) && r == ReadingOf(init[i], now);
          assert IsCompleteAt(buf, i);
        }
        if exists i :: 0 <= i < |buf| && IsCompleteAt(buf, i) && r == ReadingOf(buf[i], now) {
          var i :| 0 <= i < |buf| && IsCompleteAt(buf, i) && r == ReadingOf(buf[i], now);
          if i < |init| { assert IsCompleteAt(init, i); }
        }
      }
    }
  }

  predicate IsCompleteAt(buf: seq<Entry>, i: int) {
    0 <= i < |buf| && IsComplete(buf[i])
  }

  /** The buffer left by a flush holds exactly the incomplete entries, in order. */
  lemma {:induction false} RemainingExact(buf: seq<Entry>)
    ensures forall e :: e in Remaining(buf) <==> e in buf && !IsComplete(e)
    ensures IsSubsequence(Remaining(buf), buf)
  {
    if buf != [] {
      var init := buf[..|buf| - 1];
      var last := buf[|buf| - 1];
      RemainingExact(init);
      assert buf == init + [last];
      SubsequenceAppend(Remaining(init), init, if IsComplete(last) then [] else [last], [last]);
    }
  }

  /** Some complete entry of `buf` is for tank `id`. */
  predicate HasCompleteEntry(buf: seq<Entry>, id: string) {
    exists i :: 0 <= i < |buf| && IsComplete(buf[i]) && buf[i].tank == id
  }

  /** After a flush every complete entry's tank exists; existing tanks are untouched; new ones are named by id. */
  lemma {:induction false} WithTanksExact(tanks: map<string, Tank>, buf: seq<Entry>)
    ensures var t := WithTanks(tanks, buf);
      && (forall id :: id in t <==> id in tanks || HasCompleteEntry(buf, id))
      && (forall id :: id in tanks ==> t[id] == tanks[id])
      && (forall id :: id in t && id !in tanks ==> t[id] == Tank(id, id, None))
  {
    if buf != [] {
      var init := buf[..|buf| - 1];
      var last := buf[|buf| - 1];
      WithTanksExact(tanks, init);
      forall id ensures HasCompleteEntry(buf, id) <==> HasCompleteEntry(init, id) || (IsComplete(last) && last.tank == id) {
        HasCompleteEntryStep(buf, id);
      }
    }
  }

  /** A complete entry for `id` is in the prefix or is the last entry. */
  lemma HasCompleteEntryStep(buf: seq<Entry>, id: string)
    requires buf != []
    ensures var init, last := buf[..|buf| - 1], buf[|buf| - 1];
      HasCompleteEntry(buf, id) <==> HasCompleteEntry(init, id) || (IsComplete(last) && last.tank == id)
  {
    var init, last := buf[..|buf| - 1], buf[|buf| - 1];
    if HasCompleteEntry(buf, id) {
      var i :| 0 <= i < |buf| && IsComplete(buf[i]) && buf[i].tank == id;
      if i < |init| { assert init[i] == buf[i]; }
    }
    if HasCompleteEntry(init, id) {
      var i :| 0 <= i < |init| && IsComplete(init[i]) && init[i].tank == id;
      assert buf[i] == init[i];
    }
  }

  /**
   * Where a pass as written raises: the first complete entry whose tank `tanks` does not hold,
   * or `|buf|` when there is none. `db.get` autoflushes the reading just added, and its
   * `tank_id` then has no row to refer to.
   */
  function CrashPoint(tanks: map<string, Tank>, buf: seq<Entry>): (k: nat)
    ensures k <= |buf|
    ensures k < |buf| ==> IsComplete(buf[k]) && buf[k].tank !in tanks
    ensures forall i :: 0 <= i < k ==> !IsComplete(buf[i]) || buf[i].tank in tanks
  {
    if buf == [] then 0
    else if IsComplete(buf[0]) && buf[0].tank !in tanks then 0
    else
      var k := 1 + CrashPoint(tanks, buf[1..]);
      assert forall i :: 1 <= i < k ==> buf[i] == buf[1..][i - 1];
      k
  }

  /**
   * A complete entry of a stored tank followed by one of an unknown tank: the pass as written
   * raises at the second entry, after deleting the first from the buffer, and its transaction
   * (the first reading with it) is rolled back; the intended pass stores both readings and
   * creates the second tank.
   */
  lemma FlushAsWrittenLosesEntry()
    ensures var full := map[Temperature := 20.0, Pressure := 1.0, Co2 := 0.5];
      var (a, b) := (Entry("a", full), Entry("b", full));
      var tanks := map["a" := Tank("a", "a", None)];
      var buf := [a, b];
      var k := CrashPoint(tanks, buf);
      && k == 1
      && Remaining(buf[..k]) + buf[k..] == [b]
      && FlushReadings(buf, 0) == [ReadingOf(a, 0), ReadingOf(b, 0)] && Remaining(buf) == []
      && WithTanks(tanks, buf) == tanks["b" := Tank("b", "b", None)]
  {
    var full := map[Temperature := 20.0, Pressure := 1.0, Co2 := 0.5];
    var (a, b) := (Entry("a", full), Entry("b", full));
    var tanks := map["a" := Tank("a", "a", None)];
    var buf := [a, b];
    assert IsComplete(a) && IsComplete(b);
    assert buf[..1] == [a] && buf[1..] == [b] && buf[..|buf| - 1] == [a];
    assert [a][..0] == [];
    assert FlushReadings([], 0) == [] && Remaining([]) == [] && WithTanks(tanks, []) == tanks;
    assert FlushReadings([a], 0) == [ReadingOf(a, 0)];
    assert Remaining([a]) == [];
    assert WithTanks(tanks, [a]) == tanks;
  }

  /** A buffer partly flushed keeps distinct ids. */
  lemma PartialFlushDistinct(snapshot: seq<Entry>, i: int)
    requires DistinctTanks(snapshot) && 0 <= i <= |snapshot|
    ensures DistinctTanks(Remaining(snapshot[..i]) + snapshot[i..])
  {
    RemainingExact(snapshot[..i]);
    SelfSubsequence(snapshot[i..]);
    SubsequenceAppend(Remaining(snapshot[..i]), snapshot[..i], snapshot[i..], snapshot[i..]);
    assert snapshot[..i] + snapshot[i..] == snapshot;
    SubsequenceDistinct(Remaining(snapshot[..i]) + snapshot[i..], snapshot);
  }

  /** `del buffer[id]`. */
  function DeleteTank(buf: seq<Entry>, id: string): seq<Entry> {
    var k := IndexOfTank(buf, id);
    if k == -1 then buf else buf[..k] + buf[k + 1..]
  }

  /** Every entry left over from a prefix comes from that prefix. */
  lemma {:induction false} RemainingFrom(buf: seq<Entry>)
    ensures forall e :: e in Remaining(buf) ==> e in buf
  {
    RemainingExact(buf);
  }

  // ---- History ----

  predicate SortedDesc(s: seq<Reading>) {
    forall i, j :: 0 <= i < j < |s| ==> s[i].timestamp >= s[j].timestamp
  }

  predicate SortedAsc(s: seq<Reading>) {
    forall i, j :: 0 <= i < j < |s| ==> s[i].timestamp <= s[j].timestamp
  }

  /** Inserts `x` before the first reading that is not more recent than it. */
  function InsertDesc(x: Reading, s: seq<Reading>): (r: seq<Reading>)
    ensures |r| == |s| + 1 && multiset(r) == multiset(s) + multiset{x}
    ensures r[0] == x || (s != [] && r[0] == s[0])
  {
    if s == [] || x.timestamp >= s[0].timestamp then [x] + s
    else
      assert s == [s[0]] + s[1..];
      [s[0]] + InsertDesc(x, s[1..])
  }

  /** Insertion keeps a newest-first list newest-first. */
  lemma {:induction false} InsertDescSorted(x: Reading, s: seq<Reading>)
    requires SortedDesc(s)
    ensures SortedDesc(InsertDesc(x, s))
  {
    if s != [] && x.timestamp < s[0].timestamp {
      var t := InsertDesc(x, s[1..]);
      InsertDescSorted(x, s[1..]);
      var r := InsertDesc(x, s);
      assert r == [s[0]] + t;
      forall i, j | 0 <= i < j < |r| ensures r[i].timestamp >= r[j].timestamp {
        assert r[j] == t[j - 1];
        if i > 0 { assert r[i] == t[i - 1]; }
      }
    }
  }

  /** `ORDER BY timestamp DESC`. */
  function SortDesc(s: seq<Reading>): (r: seq<Reading>)
    ensures SortedDesc(r) && multiset(r) == multiset(s) && |r| == |s|
  {
    if s == [] then []
    else
      assert s == [s[0]] + s[1..];
      InsertDescSorted(s[0], SortDesc(s[1..]));
      InsertDesc(s[0], SortDesc(s[1..]))
  }

  /** The default `limit` of `get_history`. */
  const DefaultHistoryLimit: nat := 2880

  function MinNat(a: nat, b: nat): nat { if a <= b then a else b }

  /** The readings of one tank. */
  function ReadingsOf(readings: seq<Reading>, tankId: string): seq<Reading> {
    Filter(readings, (r: Reading) => r.tankId == tankId)
  }

  /** `get_history`: the `limit` most recent readings of the tank, oldest first. */
  function History(readings: seq<Reading>, tankId: string, limit: nat): seq<Reading> {
    Reverse(Kept(readings, tankId, limit))
  }

  /** The newest-first readings of the tank that the query keeps. */
  function Kept(readings: seq<Reading>, tankId: string, limit: nat): seq<Reading> {
    var desc := SortDesc(ReadingsOf(readings, tankId));
    desc[..MinNat(limit, |desc|)]
  }

  lemma HistoryAscending(readings: seq<Reading>, tankId: string, limit: nat)
    ensures |History(readings, tankId, limit)| == MinNat(limit, |ReadingsOf(readings, tankId)|)
    ensures SortedAsc(History(readings, tankId, limit))
  {
    var kept := Kept(readings, tankId, limit);
    var h := History(readings, tankId, limit);
    assert h == Reverse(kept);
    forall i, j | 0 <= i < j < |h| ensures h[i].timestamp <= h[j].timestamp {
      assert h[i] == kept[|kept| - 1 - i] && h[j] == kept[|kept| - 1 - j];
    }
  }

  lemma HistoryFromTank(readings: seq<Reading>, tankId: string, limit: nat)
    ensures forall x :: x in History(readings, tankId, limit) ==> x in readings && x.tankId == tankId
  {
    var mine := ReadingsOf(readings, tankId);
    var kept := Kept(readings, tankId, limit);
    ReverseMembers(kept);
    forall x | x in kept ensures x in readings && x.tankId == tankId {
      assert x in multiset(SortDesc(mine));
      FilterMembership(readings, (r: Reading) => r.tankId == tankId, x);
    }
  }

  lemma HistoryMostRecent(readings: seq<Reading>, tankId: string, limit: nat, x: Reading, r: Reading)
    requires x in History(readings, tankId, limit)
    requires r in readings && r.tankId == tankId && r !in History(readings, tankId, limit)
    ensures r.timestamp <= x.timestamp
  {
    var desc := SortDesc(ReadingsOf(readings, tankId));
    var kept := Kept(readings, tankId, limit);
    ReverseMembers(kept);
    FilterMembership(readings, (q: Reading) => q.tankId == tankId, r);
    assert r in multiset(desc);
    var j :| 0 <= j < |desc| && desc[j] == r;
    var i :| 0 <= i < |kept| && kept[i] == x;
    assert j >= |kept|;
    assert desc[i] == x;
  }

  /**
   * The history holds `min(limit, count)` readings of that tank in ascending time order, and no
   * reading of the tank left out is more recent than one that was kept.
   */
  lemma HistoryExact(readings: seq<Reading>, tankId: string, limit: nat)
    ensures var h := History(readings, tankId, limit);
      && |h| == MinNat(limit, |ReadingsOf(readings, tankId)|)
      && SortedAsc(h)
      && (forall x :: x in h ==> x in readings && x.tankId == tankId)
      && (forall x, r :: x in h && r in readings && r.tankId == tankId && r !in h ==> r.timestamp <= x.timestamp)
  {
    HistoryAscending(readings, tankId, limit);
    HistoryFromTank(readings, tankId, limit);
    forall x, r | x in History(readings, tankId, limit) && r in readings && r.tankId == tankId && r !in History(readings, tankId, limit)
      ensures r.timestamp <= x.timestamp
    {
      HistoryMostRecent(readings, tankId, limit, x, r);
    }
  }

  // ---- The service ----

  class FermentationService {
    /** `_buffer`. */
    var buffer: seq<Entry>
    /** The `fermentation_tanks` table, by id. */
    var tanks: map<string, Tank>
    /** The `fermentation_readings` table, in insertion order. */
    var readings: seq<Reading>
    /** Whether `_flush_task` runs: `setup` starts it, and a pass that raises ends it for good. */
    var flushing: bool

    ghost predicate Valid()
      reads this
    {
      DistinctTanks(buffer)
    }

    /** `__init__`: an empty buffer over the existing tables, and no flush task yet. */
    constructor(tanks: map<string, Tank>, readings: seq<Reading>)
      ensures Valid()
      ensures this.buffer == [] && this.tanks == tanks && this.readings == readings && !flushing
    {
      this.buffer := [];
      this.tanks := tanks;
      this.readings := readings;
      this.flushing := false;
    }

    /** `setup`: the flush task is started (registering the listener is left to the MQTT client). */
    method Setup()
      modifies this`flushing
      ensures flushing
    {
      flushing := true;
    }

    /** `_mqtt_listener`. */
    method Listen(topic: string, payload: seq<Byte>, parse: PayloadParser)
      requires Valid()
      modifies this`buffer
      ensures Valid()
      ensures buffer == Ingest(old(buffer), topic, payload, parse)
      ensures tanks == old(tanks) && readings == old(readings)
    {
      IngestEffect(buffer, topic, payload, parse);
      var m := MatchTopic(topic);
      if m.None? {
        return;
      }
      var (id, v) := m.value;
      var value := parse(payload);
      if value.None? {
        return;
      }
      buffer := SetValue(buffer, id, v, value.value);
    }

    /** One pass of `_flush_loop` after its sleep, at time `now`. */
    method Flush(now: Timestamp)
      requires Valid() && flushing
      modifies this`buffer, this`tanks, this`readings
      ensures Valid()
      ensures old(buffer) == [] ==> buffer == [] && tanks == old(tanks) && readings == old(readings)
      ensures buffer == Remaining(old(buffer))
      ensures readings == old(readings) + FlushReadings(old(buffer), now)
      ensures tanks == WithTanks(old(tanks), old(buffer))
    {
      if buffer == [] {
        return;
      }
      var snapshot, tanks0, readings0 := buffer, tanks, readings;
      var i := 0;
      while i < |snapshot|
        invariant 0 <= i <= |snapshot|
        invariant buffer == Remaining(snapshot[..i]) + snapshot[i..]
        invariant readings == readings0 + FlushReadings(snapshot[..i], now)
        invariant tanks == WithTanks(tanks0, snapshot[..i])
      {
        var e := snapshot[i];
        FlushStep(tanks0, snapshot, i, now);
        AppendAssoc(readings0, FlushReadings(snapshot[..i], now), if IsComplete(e) then [ReadingOf(e, now)] else []);
        FlushEntry(e, now);
        i := i + 1;
      }
      assert snapshot[..i] == snapshot;
      RemainingKeepsDistinct(snapshot);
    }

    /**
     * One pass of `_flush_loop` as the session runs it. A complete entry whose tank is not
     * stored makes `db.get` raise from its autoflush: the exception ends the task (the result
     * `crashed`), the uncommitted readings are rolled back, and the entries already deleted
     * in this pass are lost. The tank-creating branch is never reached.
     */
    method FlushAsWritten(now: Timestamp) returns (crashed: bool)
      requires Valid() && flushing
      modifies this
      ensures Valid()
      ensures flushing == !crashed
      ensures tanks == old(tanks)
      ensures var k := CrashPoint(old(tanks), old(buffer));
        && (crashed <==> k < |old(buffer)|)
        && (crashed ==> readings == old(readings) && buffer == Remaining(old(buffer)[..k]) + old(buffer)[k..])
        && (!crashed ==> readings == old(readings) + FlushReadings(old(buffer), now) && buffer == Remaining(old(buffer)))
    {
      crashed := false;
      if buffer == [] {
        return;
      }
      var snapshot, readings0 := buffer, readings;
      var i;
      crashed, i := FlushUntilRaise(snapshot, now);
      if crashed {
        PartialFlushDistinct(snapshot, i);
        readings := readings0;
        flushing := false;
      } else {
        assert snapshot[..i] == snapshot;
        assert buffer == Remaining(snapshot) by {
          assert snapshot[i..] == [];
          assert Remaining(snapshot) + [] == Remaining(snapshot);
        }
        RemainingKeepsDistinct(snapshot);
      }
    }

    /**
     * The `for` loop of a pass as written over `snapshot`, up to the entry `n` at which it
     * raises, or to the end. The reading of a raising entry has been added to the session.
     */
    method FlushUntilRaise(snapshot: seq<Entry>, now: Timestamp) returns (crashed: bool, n: nat)
      requires DistinctTanks(snapshot) && buffer == snapshot
      modifies this`buffer, this`readings
      ensures tanks == old(tanks)
      ensures n == CrashPoint(tanks, snapshot) && (crashed <==> n < |snapshot|)
      ensures buffer == Remaining(snapshot[..n]) + snapshot[n..]
      ensures readings == old(readings) + FlushReadings(snapshot[..n], now) +
                          (if crashed then [ReadingOf(snapshot[n], now)] else [])
    {
      ghost var readings0 := readings;
      crashed := false;
      var i := 0;
      while i < |snapshot|
        invariant 0 <= i <= |snapshot| && i <= CrashPoint(old(tanks), snapshot)
        invariant tanks == old(tanks)
        invariant buffer == Remaining(snapshot[..i]) + snapshot[i..]
        invariant readings == readings0 + FlushReadings(snapshot[..i], now)
      {
        var raised := StepAsWritten(snapshot, i, now, readings0);
        if raised {
          crashed, n := true, i;
          return;
        }
        i := i + 1;
      }
      n := i;
    }

    /**
     * Entry `i` of a pass as written, with the entries before it flushed: it raises exactly
     * when `i` is the crash point, and otherwise the pass moves on to entry `i + 1`.
     */
    method StepAsWritten(snapshot: seq<Entry>, i: nat, now: Timestamp, ghost readings0: seq<Reading>)
        returns (crashed: bool)
      requires DistinctTanks(snapshot) && i < |snapshot| && i <= CrashPoint(tanks, snapshot)
      requires buffer == Remaining(snapshot[..i]) + snapshot[i..]
      requires readings == readings0 + FlushReadings(snapshot[..i], now)
      modifies this`buffer, this`readings
      ensures tanks == old(tanks)
      ensures crashed <==> i == CrashPoint(tanks, snapshot)
      ensures crashed ==> buffer == old(buffer)
      ensures crashed ==> readings == readings0 + FlushReadings(snapshot[..i], now) + [ReadingOf(snapshot[i], now)]
      ensures !crashed ==> buffer == Remaining(snapshot[..i + 1]) + snapshot[i + 1..]
      ensures !crashed ==> readings == readings0 + FlushReadings(snapshot[..i + 1], now)
    {
      var e := snapshot[i];
      FlushStep(tanks, snapshot, i, now);
      AppendAssoc(readings0, FlushReadings(snapshot[..i], now), if IsComplete(e) then [ReadingOf(e, now)] else []);
      crashed := FlushEntryAsWritten(e, now);
    }

    /** The loop body as written: `db.get` raises for a complete entry whose tank is not stored. */
    method FlushEntryAsWritten(e: Entry, now: Timestamp) returns (crashed: bool)
      modifies this`buffer, this`readings
      ensures crashed <==> IsComplete(e) && e.tank !in old(tanks)
      ensures tanks == old(tanks)
      ensures readings == old(readings) + (if IsComplete(e) then [ReadingOf(e, now)] else [])
      ensures crashed ==> buffer == old(buffer)
      ensures !crashed ==> buffer == if IsComplete(e) then DeleteTank(old(buffer), e.tank) else old(buffer)
    {
      crashed := false;
      if IsComplete(e) {
        readings := readings + [ReadingOf(e, now)];
        if e.tank !in tanks {
          crashed := true;
          return;
        }
        buffer := DeleteTank(buffer, e.tank);
      }
    }

    /** The body of the flush loop for one buffered entry. */
    method FlushEntry(e: Entry, now: Timestamp)
      modifies this`buffer, this`tanks, this`readings
      ensures readings == old(readings) + (if IsComplete(e) then [ReadingOf(e, now)] else [])
      ensures tanks == if IsComplete(e) && e.tank !in old(tanks) then old(tanks)[e.tank := Tank(e.tank, e.tank, None)] else old(tanks)
      ensures buffer == if IsComplete(e) then DeleteTank(old(buffer), e.tank) else old(buffer)
    {
      if IsComplete(e) {
        readings := readings + [ReadingOf(e, now)];
        if e.tank !in tanks {
          tanks := tanks[e.tank := Tank(e.tank, e.tank, None)];
        }
        buffer := DeleteTank(buffer, e.tank);
      }
    }

    /** `assign_profile`. */
    method AssignProfile(tankId: string, profile: string)
      requires Valid()
      modifies this`tanks
      ensures Valid()
      ensures tanks == Assigned(old(tanks), tankId, profile)
      ensures buffer == old(buffer) && readings == old(readings)
    {
      if tankId !in tanks {
        tanks := tanks[tankId := Tank(tankId, tankId, None)];
      }
      tanks := tanks[tankId := tanks[tankId].(profile := Some(profile))];
    }

    /** `get_history`. */
    function GetHistory(tankId: string, limit: nat): (h: seq<Reading>)
      reads this
      ensures |h| <= limit && SortedAsc(h)
      ensures forall x :: x in h ==> x in readings && x.tankId == tankId
    {
      HistoryExact(readings, tankId, limit);
      History(readings, tankId, limit)
    }

    /** `get_history` called without `limit`: two days of readings at one a minute. */
    function GetDefaultHistory(tankId: string): (h: seq<Reading>)
      reads this
      ensures |h| <= DefaultHistoryLimit && SortedAsc(h)
      ensures forall x :: x in h ==> x in readings && x.tankId == tankId
      ensures |h| == MinNat(DefaultHistoryLimit, |ReadingsOf(readings, tankId)|)
    {
      HistoryExact(readings, tankId, DefaultHistoryLimit);
      GetHistory(tankId, DefaultHistoryLimit)
    }
  }

  /** The tank table after `assign_profile`. */
  function Assigned(tanks: map<string, Tank>, tankId: string, profile: string): map<string, Tank> {
    var t := if tankId in tanks then tanks[tankId] else Tank(tankId, tankId, None);
    tanks[tankId := t.(profile := Some(profile))]
  }

  /** After `assign_profile` the tank exists with the profile; a new one is named by its id; nothing else changes. */
  lemma AssignedEffect(tanks: map<string, Tank>, tankId: string, profile: string)
    ensures var t := Assigned(tanks, tankId, profile);
      && tankId in t && t[tankId].profile == Some(profile)
      && (tankId !in tanks ==> t[tankId].name == tankId)
      && (tankId in tanks ==> t[tankId].name == tanks[tankId].name)
      && forall id :: id != tankId ==> (id in t <==> id in tanks) && (id in tanks ==> t[id] == tanks[id])
  {
  }

  /** How each of the three flush results grows by one more entry of the snapshot. */
  lemma FlushStep(tanks: map<string, Tank>, snapshot: seq<Entry>, i: int, now: Timestamp)
    requires DistinctTanks(snapshot)
    requires 0 <= i < |snapshot|
    ensures var e, pre, next := snapshot[i], snapshot[..i], snapshot[..i + 1];
      && FlushReadings(next, now) == FlushReadings(pre, now) + (if IsComplete(e) then [ReadingOf(e, now)] else [])
      && WithTanks(tanks, next) ==
           (var w := WithTanks(tanks, pre); if IsComplete(e) && e.tank !in w then w[e.tank := Tank(e.tank, e.tank, None)] else w)
      && Remaining(next) + snapshot[i + 1..] ==
           (if IsComplete(e) then DeleteTank(Remaining(pre) + snapshot[i..], e.tank) else Remaining(pre) + snapshot[i..])
  {
    PrefixStep(tanks, snapshot, i, now);
    RemainingStep(snapshot, i);
  }

  /** The readings and the tanks of one more entry: the last step of their definitions. */
  lemma PrefixStep(tanks: map<string, Tank>, snapshot: seq<Entry>, i: int, now: Timestamp)
    requires 0 <= i < |snapshot|
    ensures var e, pre, next := snapshot[i], snapshot[..i], snapshot[..i + 1];
      && FlushReadings(next, now) == FlushReadings(pre, now) + (if IsComplete(e) then [ReadingOf(e, now)] else [])
      && WithTanks(tanks, next) ==
           (var w := WithTanks(tanks, pre); if IsComplete(e) && e.tank !in w then w[e.tank := Tank(e.tank, e.tank, None)] else w)
  {
    var next := snapshot[..i + 1];
    assert next[..i] == snapshot[..i];
    assert next[i] == snapshot[i];
  }

  /** The buffer left by one more entry: a complete entry is deleted, an incomplete one stays. */
  lemma RemainingStep(snapshot: seq<Entry>, i: int)
    requires DistinctTanks(snapshot)
    requires 0 <= i < |snapshot|
    ensures var e := snapshot[i];
      Remaining(snapshot[..i + 1]) + snapshot[i + 1..] ==
        (if IsComplete(e) then DeleteTank(Remaining(snapshot[..i]) + snapshot[i..], e.tank) else Remaining(snapshot[..i]) + snapshot[i..])
  {
    var next := snapshot[..i + 1];
    assert next[..i] == snapshot[..i];
    assert next[i] == snapshot[i];
    if IsComplete(snapshot[i]) {
      DeleteAfterRemaining(snapshot, i);
    } else {
      assert snapshot[i..] == [snapshot[i]] + snapshot[i + 1..];
    }
  }

  /** Deleting the current entry's tank from the partial buffer drops exactly that entry. */
  lemma DeleteAfterRemaining(snapshot: seq<Entry>, i: int)
    requires DistinctTanks(snapshot)
    requires 0 <= i < |snapshot|
    ensures DeleteTank(Remaining(snapshot[..i]) + snapshot[i..], snapshot[i].tank) == Remaining(snapshot[..i]) + snapshot[i + 1..]
  {
    var pre := Remaining(snapshot[..i]);
    var buf := pre + snapshot[i..];
    RemainingFrom(snapshot[..i]);
    forall j | 0 <= j < |pre| ensures buf[j].tank != snapshot[i].tank {
      assert buf[j] == pre[j];
      assert pre[j] in snapshot[..i];
      var m :| 0 <= m < i && snapshot[..i][m] == pre[j];
    }
    assert buf[|pre|] == snapshot[i];
    assert IndexOfTank(buf, snapshot[i].tank) == |pre|;
    assert buf[..|pre|] == pre;
    assert buf[|pre| + 1..] == snapshot[i + 1..];
  }

  /** The leftover buffer keeps distinct ids. */
  lemma RemainingKeepsDistinct(buf: seq<Entry>)
    requires DistinctTanks(buf)
    ensures DistinctTanks(Remaining(buf))
  {
    RemainingExact(buf);
    SubsequenceDistinct(Remaining(buf), buf);
  }

  lemma {:induction false} SubsequenceDistinct(sub: seq<Entry>, buf: seq<Entry>)
    requires IsSubsequence(sub, buf) && DistinctTanks(buf)
    ensures DistinctTanks(sub)
    decreases |buf|
  {
    if sub != [] && buf != [] {
      assert DistinctTanks(buf[1..]) by {
        assert forall i :: 0 <= i < |buf| - 1 ==> buf[1..][i] == buf[i + 1];
      }
      if sub[0] == buf[0] {
        SubsequenceDistinct(sub[1..], buf[1..]);
        SubsequenceMembers(sub[1..], buf[1..]);
        forall j | 0 < j < |sub| ensures sub[0].tank != sub[j].tank {
          assert sub[j] == sub[1..][j - 1];
          assert sub[j] in buf[1..];
          var m :| 0 <= m < |buf| - 1 && buf[1..][m] == sub[j];
          assert buf[m + 1] == sub[j];
        }
      } else {
        SubsequenceDistinct(sub, buf[1..]);
      }
    }
  }
}
