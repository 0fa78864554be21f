/** Retained per-entry topics: set for every entry of the latest list, cleared up to the stored
    high-water count. An empty retained payload deletes the topic (MQTT 3.1.1, section 3.3.1.3). */
module RetainedTopics {
  import opened Basics
  import opened Lists
  import Decimal
  import MqttPath

  type Broker = map<string, string>

  datatype Publication = Publication(topic: string, payload: string)

  function Apply(broker: Broker, p: Publication): Broker {
    if p.payload == "" then broker - {p.topic} else broker[p.topic := p.payload]
  }

  function ApplyAll(broker: Broker, ps: seq<Publication>): Broker {
    if ps == [] then broker else Apply(ApplyAll(broker, ps[..|ps| - 1]), ps[|ps| - 1])
  }

  /** A list entry: its id and the members of its JSON object. */
  datatype Entry = Entry(id: nat, members: string)

  const BY_ID: Entry -> int := (e: Entry) => e.id

  lemma AscendingIds(entries: seq<Entry>)
    requires Sorted(entries, BY_ID)
    ensures forall i, j :: 0 <= i < j < |entries| ==> entries[i].id <= entries[j].id
  {
    forall i, j | 0 <= i < j < |entries| ensures entries[i].id <= entries[j].id {
      assert BY_ID(entries[i]) <= BY_ID(entries[j]);
    }
  }

  function EntryJson(e: Entry, index: nat): string {
    "{" + e.members + ",\"index\":" + Decimal.PrintNat(index) + "}"
  }

  // ---------------------------------------------------------------- reading an entry back

  function TrailingDigits(s: string): (n: nat)
    ensures n <= |s| && forall k :: |s| - n <= k < |s| ==> Decimal.IsDigit(s[k])
  {
    if s == "" || !Decimal.IsDigit(s[|s| - 1]) then 0 else 1 + TrailingDigits(s[..|s| - 1])
  }

  /** A payload taken apart: the text between the brace and the last index member, and its number. */
  function ReadEntry(payload: string): Option<(string, nat)> {
    var n := |payload|;
    if n < 2 || payload[0] != '{' || payload[n - 1] != '}' then None
    else
      var inner := payload[1..n - 1];
      var head := |inner| - TrailingDigits(inner);
      if head == |inner| || head < 9 || inner[head - 9..head] != ",\"index\":" then None
      else Some((inner[..head - 9], Decimal.ParseNat(inner[head..])))
  }

  /** Every payload says its entry and its place in the list, whatever its members hold. */
  lemma EntryReadsBack(e: Entry, index: nat)
    ensures ReadEntry(EntryJson(e, index)) == Some((e.members, index))
  {
    var digits, front := Decimal.PrintNat(index), e.members + ",\"index\":";
    var payload := EntryJson(e, index);
    assert payload[1..|payload| - 1] == front + digits;
    TrailingDigitsOf(front, digits);
    assert (front + digits)[..|front|] == front && (front + digits)[|front|..] == digits;
    assert (front + digits)[|front| - 9..|front|] == ",\"index\":";
    assert (front + digits)[..|front| - 9] == e.members;
    Decimal.ParsePrintedNat(index);
  }

  lemma {:induction false} TrailingDigitsOf(front: string, digits: string)
    requires front != "" && !Decimal.IsDigit(front[|front| - 1]) && forall c :: c in digits ==> Decimal.IsDigit(c)
    ensures TrailingDigits(front + digits) == |digits|
  {
    if digits == "" {
      assert front + digits == front;
    } else {
      assert (front + digits)[..|front + digits| - 1] == front + digits[..|digits| - 1];
      assert digits[|digits| - 1] in digits;
      TrailingDigitsOf(front, digits[..|digits| - 1]);
    }
  }

  // ---------------------------------------------------------------- the topics of a list

  /** A list kept in topics below one path, such as "/timecontrol" under the opener's path. */
  datatype Family = Family(mqttPath: string, base: string)

  function EntryTopic(f: Family, i: nat): string {
    f.mqttPath + f.base + "/entries/" + Decimal.PrintNat(i)
  }

  function JsonTopic(f: Family): string { f.mqttPath + f.base + "/json" }

  // ---------------------------------------------------------------- topics

  /** Publishing joins prefix and path with a slash where one is missing, removing concatenates
      them; for a base that starts with a slash both name the same topic. */
  lemma PublishedTopicIsRemovedTopic(f: Family, i: nat)
    requires f.base != "" && f.base[0] == '/'
    ensures MqttPath.Join([f.mqttPath, f.base + "/entries/" + Decimal.PrintNat(i)]) == EntryTopic(f, i)
    ensures MqttPath.Join([f.mqttPath, f.base + "/json"]) == JsonTopic(f)
  {
    MqttPath.SubscribedIsRecognised(f.mqttPath, f.base + "/entries/" + Decimal.PrintNat(i), "");
    MqttPath.SubscribedIsRecognised(f.mqttPath, f.base + "/json", "");
    assert f.mqttPath + (f.base + "/json") == JsonTopic(f);
    assert f.mqttPath + (f.base + "/entries/" + Decimal.PrintNat(i)) == EntryTopic(f, i);
  }

  lemma TopicsAreDistinct(f: Family, i: nat, j: nat)
    ensures EntryTopic(f, i) == EntryTopic(f, j) ==> i == j
    ensures EntryTopic(f, i) != JsonTopic(f)
  {
    var head := f.mqttPath + f.base + "/entries/";
    assert EntryTopic(f, i)[|head|..] == Decimal.PrintNat(i);
    assert EntryTopic(f, j)[|head|..] == Decimal.PrintNat(j);
    if EntryTopic(f, i) == EntryTopic(f, j) {
      Decimal.PrintNatIsInjective(i, j);
    }
    var n := |f.mqttPath + f.base|;
    assert EntryTopic(f, i)[n + 1] == 'e' && JsonTopic(f)[n + 1] == 'j';
  }

  /** Families under one path whose bases first differ somewhere both have a character share no topic. */
  lemma FamiliesAreDisjoint(f: Family, g: Family, at: nat, i: nat, j: nat)
    requires f.mqttPath == g.mqttPath
    requires at < |f.base| && at < |g.base| && f.base[at] != g.base[at]
    ensures EntryTopic(f, i) != EntryTopic(g, j) && EntryTopic(f, i) != JsonTopic(g)
    ensures JsonTopic(f) != EntryTopic(g, j) && JsonTopic(f) != JsonTopic(g)
  {
    var n := |f.mqttPath| + at;
    assert EntryTopic(f, i)[n] == JsonTopic(f)[n] == f.base[at];
    assert EntryTopic(g, j)[n] == JsonTopic(g)[n] == g.base[at];
  }

  // ---------------------------------------------------------------- one publication

  function EntryPublications(f: Family, entries: seq<Entry>): seq<Publication> {
    seq(|entries|, i requires 0 <= i < |entries| => Publication(EntryTopic(f, i), EntryJson(entries[i], i)))
  }

  function Removals(f: Family, from: nat, to: nat): seq<Publication> {
    if from >= to then [] else seq(to - from, i requires 0 <= i => Publication(EntryTopic(f, from + i), ""))
  }

  /** Everything one publish of a list sends, in order. */
  function Publications(f: Family, entries: seq<Entry>, json: string, perEntry: bool, max: nat): seq<Publication> {
    (if perEntry then EntryPublications(f, entries) else [])
    + [Publication(JsonTopic(f), json)]
    + Removals(f, |entries|, max)
  }

  lemma ApplyNext(broker: Broker, ps: seq<Publication>, k: nat)
    requires k < |ps|
    ensures ApplyAll(broker, ps[..k + 1]) == Apply(ApplyAll(broker, ps[..k]), ps[k])
  {
    assert ps[..k + 1][..k] == ps[..k];
  }

  lemma {:induction false} ApplyBoth(broker: Broker, ps: seq<Publication>, qs: seq<Publication>)
    ensures ApplyAll(broker, ps + qs) == ApplyAll(ApplyAll(broker, ps), qs)
  {
    if qs == [] {
      assert ps + qs == ps;
    } else {
      assert (ps + qs)[..|ps + qs| - 1] == ps + qs[..|qs| - 1];
      ApplyBoth(broker, ps, qs[..|qs| - 1]);
    }
  }

  lemma {:induction false} Untouched(broker: Broker, ps: seq<Publication>, topic: string)
    requires forall k :: 0 <= k < |ps| ==> ps[k].topic != topic
    ensures topic in ApplyAll(broker, ps) <==> topic in broker
    ensures topic in broker ==> ApplyAll(broker, ps)[topic] == broker[topic]
  {
    if ps != [] {
      Untouched(broker, ps[..|ps| - 1], topic);
    }
  }

  lemma {:induction false} LastOneWins(broker: Broker, ps: seq<Publication>, k: nat)
    requires k < |ps| && forall j :: k < j < |ps| ==> ps[j].topic != ps[k].topic
    ensures ps[k].payload == "" ==> ps[k].topic !in ApplyAll(broker, ps)
    ensures ps[k].payload != "" ==>
              ps[k].topic in ApplyAll(broker, ps) && ApplyAll(broker, ps)[ps[k].topic] == ps[k].payload
  {
    if k < |ps| - 1 {
      LastOneWins(broker, ps[..|ps| - 1], k);
    }
  }

  ghost predicate SameAt(a: Broker, b: Broker, topic: string) {
    if topic in b then topic in a && a[topic] == b[topic] else topic !in a
  }

  /** No entry topic at or above the count is set. */
  ghost predicate BelowHighWater(f: Family, broker: Broker, count: nat) {
    forall i: nat :: i >= count ==> EntryTopic(f, i) !in broker
  }

  /** The entry topics hold exactly the list: entry i at index i, and nothing beyond. */
  ghost predicate Agrees(f: Family, broker: Broker, entries: seq<Entry>) {
    HoldsEntries(f, broker, entries) && BelowHighWater(f, broker, |entries|)
  }

  ghost predicate HoldsEntries(f: Family, broker: Broker, entries: seq<Entry>) {
    forall i :: 0 <= i < |entries| ==>
      EntryTopic(f, i) in broker && broker[EntryTopic(f, i)] == EntryJson(entries[i], i)
  }

  /** Entry topics that agree with a list read back as its entries, in order and with their indices, and
      there are no others. */
  lemma AgreementReadsBack(f: Family, broker: Broker, entries: seq<Entry>)
    requires Agrees(f, broker, entries)
    ensures forall i: nat :: EntryTopic(f, i) in broker <==> i < |entries|
    ensures forall i: nat | i < |entries| ::
              EntryTopic(f, i) in broker && ReadEntry(broker[EntryTopic(f, i)]) == Some((entries[i].members, i))
  {
    forall i: nat | i < |entries|
      ensures EntryTopic(f, i) in broker && ReadEntry(broker[EntryTopic(f, i)]) == Some((entries[i].members, i))
    {
      EntryReadsBack(entries[i], i);
    }
  }

  /** So the topics tell what list they hold: two lists that agree with them have the same entries. */
  lemma TopicsTellTheList(f: Family, broker: Broker, a: seq<Entry>, b: seq<Entry>)
    requires Agrees(f, broker, a) && Agrees(f, broker, b)
    ensures |a| == |b| && forall i :: 0 <= i < |a| ==> a[i].members == b[i].members
  {
    AgreementReadsBack(f, broker, a);
    AgreementReadsBack(f, broker, b);
    assert EntryTopic(f, |a|) !in broker && EntryTopic(f, |b|) !in broker;
    forall i | 0 <= i < |a| ensures a[i].members == b[i].members {
      assert ReadEntry(broker[EntryTopic(f, i)]) == Some((a[i].members, i)) == Some((b[i].members, i));
    }
  }

  /** What becomes of entry topic i in a whole publish. */
  lemma EntryTopicAfter(f: Family, broker: Broker, entries: seq<Entry>, json: string, perEntry: bool, max: nat, i: nat)
    ensures var after := ApplyAll(broker, Publications(f, entries, json, perEntry, max));
            if i < |entries| && perEntry then
              EntryTopic(f, i) in after && after[EntryTopic(f, i)] == EntryJson(entries[i], i)
            else if |entries| <= i < max then EntryTopic(f, i) !in after
            else SameAt(after, broker, EntryTopic(f, i))
  {
    var ps := Publications(f, entries, json, perEntry, max);
    var n := if perEntry then |entries| else 0;
    forall k | 0 <= k < |ps|
      ensures ps[k].topic == EntryTopic(f, i) ==>
                (k < n && k == i) || (k > n && |entries| + k - n - 1 == i)
    {
      if k < n {
        TopicsAreDistinct(f, k, i);
      } else if k == n {
        TopicsAreDistinct(f, i, i);
      } else {
        TopicsAreDistinct(f, |entries| + k - n - 1, i);
      }
    }
    if i < n {
      assert ps[i].topic == EntryTopic(f, i);
      LastOneWins(broker, ps, i);
    } else if |entries| <= i < max {
      assert ps[n + 1 + i - |entries|].topic == EntryTopic(f, i);
      LastOneWins(broker, ps, n + 1 + i - |entries|);
    } else {
      Untouched(broker, ps, EntryTopic(f, i));
    }
  }

  /** A whole publish, with the entry topics on or off: topics past the list are gone, those of the
      list hold it if they are on and are left as they were if they are off, and no topic outside
      the family changes. So the topics agree with the list exactly if the entry topics are on or
      happened to hold the list already. */
  lemma PublishEffect(f: Family, broker: Broker, entries: seq<Entry>, json: string, perEntry: bool, max: nat)
    requires BelowHighWater(f, broker, max) && |entries| <= max
    ensures var after := ApplyAll(broker, Publications(f, entries, json, perEntry, max));
            && BelowHighWater(f, after, |entries|)
            && (Agrees(f, after, entries) <==> perEntry || HoldsEntries(f, broker, entries))
            && (!perEntry ==> forall i :: 0 <= i < |entries| ==> SameAt(after, broker, EntryTopic(f, i)))
            && forall topic :: OutsideFamily(f, topic) ==> SameAt(after, broker, topic)
  {
    var after := ApplyAll(broker, Publications(f, entries, json, perEntry, max));
    forall i: nat | i >= |entries| ensures EntryTopic(f, i) !in after {
      EntryTopicAfter(f, broker, entries, json, perEntry, max, i);
    }
    forall i | 0 <= i < |entries|
      ensures perEntry ==> EntryTopic(f, i) in after && after[EntryTopic(f, i)] == EntryJson(entries[i], i)
      ensures !perEntry ==> SameAt(after, broker, EntryTopic(f, i))
    {
      EntryTopicAfter(f, broker, entries, json, perEntry, max, i);
    }
    OtherTopicsAfter(f, broker, entries, json, perEntry, max);
  }

  /** The JSON topic holds the text of the list after a whole publish, whatever the entry topics do. */
  lemma JsonTopicAfter(f: Family, broker: Broker, entries: seq<Entry>, json: string, perEntry: bool, max: nat)
    requires json != ""
    ensures var after := ApplyAll(broker, Publications(f, entries, json, perEntry, max));
            JsonTopic(f) in after && after[JsonTopic(f)] == json
  {
    var ps := Publications(f, entries, json, perEntry, max);
    var n := if perEntry then |entries| else 0;
    forall j | n < j < |ps| ensures ps[j].topic != JsonTopic(f) {
      TopicsAreDistinct(f, |entries| + j - n - 1, 0);
    }
    LastOneWins(broker, ps, n);
  }

  lemma OtherTopicsAfter(f: Family, broker: Broker, entries: seq<Entry>, json: string, perEntry: bool, max: nat)
    ensures var after := ApplyAll(broker, Publications(f, entries, json, perEntry, max));
            forall topic :: OutsideFamily(f, topic) ==> SameAt(after, broker, topic)
  {
    var ps := Publications(f, entries, json, perEntry, max);
    forall topic | OutsideFamily(f, topic) ensures SameAt(ApplyAll(broker, ps), broker, topic) {
      Untouched(broker, ps, topic);
    }
  }

  ghost predicate OutsideFamily(f: Family, topic: string) {
    topic != JsonTopic(f) && forall i: nat :: topic != EntryTopic(f, i)
  }

  /** Two lists under one path, such as time control and authorizations: publishing one never
      disturbs the topics of the other. */
  lemma OtherListStays(f: Family, g: Family, at: nat, broker: Broker, entries: seq<Entry>, json: string,
                       perEntry: bool, max: nat, others: seq<Entry>)
    requires f.mqttPath == g.mqttPath
    requires at < |f.base| && at < |g.base| && f.base[at] != g.base[at]
    requires Agrees(g, broker, others)
    ensures Agrees(g, ApplyAll(broker, Publications(f, entries, json, perEntry, max)), others)
  {
    var after := ApplyAll(broker, Publications(f, entries, json, perEntry, max));
    OtherTopicsAfter(f, broker, entries, json, perEntry, max);
    forall j: nat ensures SameAt(after, broker, EntryTopic(g, j)) {
      forall i: nat ensures EntryTopic(g, j) != EntryTopic(f, i) {
        FamiliesAreDisjoint(f, g, at, i, j);
      }
      FamiliesAreDisjoint(f, g, at, 0, j);
      assert OutsideFamily(f, EntryTopic(g, j));
    }
  }

  /** However far a publish gets, it does not touch an entry topic at or above the high-water count. */
  lemma PrefixKeepsBeyond(f: Family, broker: Broker, entries: seq<Entry>, json: string, perEntry: bool,
                          max: nat, sent: nat, i: nat)
    requires |entries| <= max <= i && sent <= |Publications(f, entries, json, perEntry, max)|
    ensures SameAt(ApplyAll(broker, Publications(f, entries, json, perEntry, max)[..sent]), broker, EntryTopic(f, i))
  {
    var ps := Publications(f, entries, json, perEntry, max);
    var n := if perEntry then |entries| else 0;
    forall k | 0 <= k < sent ensures ps[..sent][k].topic != EntryTopic(f, i) {
      TopicsAreDistinct(f, if k < n then k else if k == n then 0 else |entries| + k - n - 1, i);
      TopicsAreDistinct(f, i, i);
    }
    Untouched(broker, ps[..sent], EntryTopic(f, i));
  }

  /** So if none is set there before it, none is at any point of it. */
  lemma PrefixStaysBelow(f: Family, broker: Broker, entries: seq<Entry>, json: string, perEntry: bool, max: nat,
                         sent: nat)
    requires BelowHighWater(f, broker, max) && |entries| <= max
    requires sent <= |Publications(f, entries, json, perEntry, max)|
    ensures BelowHighWater(f, ApplyAll(broker, Publications(f, entries, json, perEntry, max)[..sent]), max)
  {
    forall i: nat | i >= max
      ensures EntryTopic(f, i) !in ApplyAll(broker, Publications(f, entries, json, perEntry, max)[..sent])
    {
      PrefixKeepsBeyond(f, broker, entries, json, perEntry, max, sent, i);
    }
  }

  // ---------------------------------------------------------------- runs

  /** The high-water count in memory and in flash, and the broker. */
  datatype Hub = Hub(maxCount: nat, stored: nat, broker: Broker)

  /** An update with a sorted and cut list. The hub restarts after `sent` publications if the
      publish has more; the whole publish gets through otherwise. */
  datatype Update = Update(entries: seq<Entry>, json: string, perEntry: bool, sent: nat)

  function Step(f: Family, h: Hub, u: Update): Hub {
    var max := if |u.entries| > h.maxCount then |u.entries| else h.maxCount;
    var stored := if |u.entries| > h.maxCount then |u.entries| else h.stored;
    var ps := Publications(f, u.entries, u.json, u.perEntry, max);
    if u.sent < |ps| then Hub(stored, stored, ApplyAll(h.broker, ps[..u.sent]))
    else Hub(max, stored, ApplyAll(h.broker, ps))
  }

  function Run(f: Family, h: Hub, us: seq<Update>): Hub {
    if us == [] then h else Step(f, Run(f, h, us[..|us| - 1]), us[|us| - 1])
  }

  predicate Complete(h: Hub, u: Update, f: Family) {
    u.sent >= |Publications(f, u.entries, u.json, u.perEntry,
                            if |u.entries| > h.maxCount then |u.entries| else h.maxCount)|
  }

  ghost predicate Consistent(f: Family, h: Hub) {
    h.maxCount == h.stored && BelowHighWater(f, h.broker, h.stored)
  }

  lemma {:induction false} RunStaysConsistent(f: Family, h: Hub, us: seq<Update>)
    requires Consistent(f, h)
    ensures Consistent(f, Run(f, h, us))
  {
    if us != [] {
      var before, u := Run(f, h, us[..|us| - 1]), us[|us| - 1];
      RunStaysConsistent(f, h, us[..|us| - 1]);
      var max := if |u.entries| > before.maxCount then |u.entries| else before.maxCount;
      var ps := Publications(f, u.entries, u.json, u.perEntry, max);
      PrefixStaysBelow(f, before.broker, u.entries, u.json, u.perEntry, max, if u.sent < |ps| then u.sent else |ps|);
      assert ps[..|ps|] == ps;
    }
  }

  /** Over every run of updates, with the entry topics switched on and off and publishes cut short
      by restarts anywhere: after each whole publish with the entry topics on, they hold exactly the
      latest list; after any whole publish nothing is left beyond it. */
  lemma AgreesAfterEveryPublish(f: Family, h: Hub, us: seq<Update>)
    requires Consistent(f, h) && us != []
    requires Complete(Run(f, h, us[..|us| - 1]), us[|us| - 1], f)
    ensures var u := us[|us| - 1];
            && BelowHighWater(f, Run(f, h, us).broker, |u.entries|)
            && (u.perEntry ==> Agrees(f, Run(f, h, us).broker, u.entries))
            && (u.perEntry ==> forall i: nat | i < |u.entries| ::
                  && EntryTopic(f, i) in Run(f, h, us).broker
                  && ReadEntry(Run(f, h, us).broker[EntryTopic(f, i)]) == Some((u.entries[i].members, i)))
            && (u.json != "" ==>
                  JsonTopic(f) in Run(f, h, us).broker && Run(f, h, us).broker[JsonTopic(f)] == u.json)
  {
    var before, u := Run(f, h, us[..|us| - 1]), us[|us| - 1];
    RunStaysConsistent(f, h, us[..|us| - 1]);
    var max := if |u.entries| > before.maxCount then |u.entries| else before.maxCount;
    PublishEffect(f, before.broker, u.entries, u.json, u.perEntry, max);
    if u.perEntry {
      AgreementReadsBack(f, Run(f, h, us).broker, u.entries);
    }
    if u.json != "" {
      JsonTopicAfter(f, before.broker, u.entries, u.json, u.perEntry, max);
    }
  }

  // ---------------------------------------------------------------- the count lost by an import

  /** An import of settings that names the count, and the restart that follows it: the count is stored
      with a type that its reader does not find, and reads as zero. */
  function AfterImport(h: Hub): Hub { Hub(0, 0, h.broker) }

  /** The largest of a count and the lengths of the lists. */
  function Longest(count: nat, us: seq<Update>): nat {
    if us == [] then count
    else
      var before, n := Longest(count, us[..|us| - 1]), |us[|us| - 1].entries|;
      if n > before then n else before
  }

  /** From a count just read a run keeps the larger of it and its longest list, and leaves the entry
      topics from there on as they were. */
  lemma {:induction false} RunKeepsBeyond(f: Family, h: Hub, us: seq<Update>, i: nat)
    requires h.maxCount == h.stored && i >= Longest(h.maxCount, us)
    ensures var r := Run(f, h, us);
            r.maxCount == r.stored == Longest(h.maxCount, us) && SameAt(r.broker, h.broker, EntryTopic(f, i))
  {
    if us != [] {
      var before, u := Run(f, h, us[..|us| - 1]), us[|us| - 1];
      RunKeepsBeyond(f, h, us[..|us| - 1], i);
      var max := Longest(h.maxCount, us);
      var ps := Publications(f, u.entries, u.json, u.perEntry, max);
      var sent := if u.sent < |ps| then u.sent else |ps|;
      PrefixKeepsBeyond(f, before.broker, u.entries, u.json, u.perEntry, max, sent, i);
      assert ps[..|ps|] == ps;
    }
  }

  /** Exactly when whole publishes clear everything past their list, whatever the count: if no topic is
      set from the larger of the count and the longest list on. */
  lemma ClearsExactly(f: Family, h: Hub, us: seq<Update>)
    requires h.maxCount == h.stored && us != []
    requires Complete(Run(f, h, us[..|us| - 1]), us[|us| - 1], f)
    ensures BelowHighWater(f, Run(f, h, us).broker, |us[|us| - 1].entries|)
            <==> BelowHighWater(f, h.broker, Longest(h.maxCount, us))
  {
    var before, u, max := Run(f, h, us[..|us| - 1]), us[|us| - 1], Longest(h.maxCount, us);
    forall i: nat | i >= max
      ensures SameAt(before.broker, h.broker, EntryTopic(f, i))
      ensures SameAt(Run(f, h, us).broker, h.broker, EntryTopic(f, i))
    {
      RunKeepsBeyond(f, h, us[..|us| - 1], i);
      RunKeepsBeyond(f, h, us, i);
    }
    RunKeepsBeyond(f, h, us[..|us| - 1], max);
    if BelowHighWater(f, h.broker, max) {
      PublishEffect(f, before.broker, u.entries, u.json, u.perEntry, max);
    }
  }

  /** The state after such an import is consistent exactly if no entry topic is set. After it the entry
      topics past every later list stay for ever, so a whole publish clears everything past its list
      exactly if there are none. */
  lemma ImportForgetsTopics(f: Family, h: Hub, us: seq<Update>)
    ensures Consistent(f, AfterImport(h)) <==> BelowHighWater(f, h.broker, 0)
    ensures forall i: nat :: i >= Longest(0, us) ==>
              SameAt(Run(f, AfterImport(h), us).broker, h.broker, EntryTopic(f, i))
    ensures us != [] && Complete(Run(f, AfterImport(h), us[..|us| - 1]), us[|us| - 1], f) ==>
              (BelowHighWater(f, Run(f, AfterImport(h), us).broker, |us[|us| - 1].entries|)
               <==> BelowHighWater(f, h.broker, Longest(0, us)))
  {
    forall i: nat | i >= Longest(0, us)
      ensures SameAt(Run(f, AfterImport(h), us).broker, h.broker, EntryTopic(f, i))
    {
      RunKeepsBeyond(f, AfterImport(h), us, i);
    }
    if us != [] && Complete(Run(f, AfterImport(h), us[..|us| - 1]), us[|us| - 1], f) {
      ClearsExactly(f, AfterImport(h), us);
    }
  }

  // ---------------------------------------------------------------- the code

  class ListTopics {
    const family: Family
    var maxEntryCount: nat
    var storedCount: nat
    var broker: Broker

    constructor (family: Family, storedCount: nat, broker: Broker)
      ensures this.family == family && State() == Hub(storedCount, storedCount, broker)
    {
      this.family, this.storedCount, this.broker := family, storedCount, broker;
      maxEntryCount := storedCount;
    }

    function State(): Hub reads this { Hub(maxEntryCount, storedCount, broker) }

    method Send(topic: string, payload: string)
      modifies this`broker
      ensures broker == Apply(old(broker), Publication(topic, payload))
    {
      broker := if payload == "" then broker - {topic} else broker[topic := payload];
    }

    method SendEntries(entries: seq<Entry>)
      modifies this`broker
      ensures broker == ApplyAll(old(broker), EntryPublications(family, entries))
    {
      ghost var ps := EntryPublications(family, entries);
      for index := 0 to |entries|
        invariant broker == ApplyAll(old(broker), ps[..index])
      {
        ApplyNext(old(broker), ps, index);
        Send(EntryTopic(family, index), EntryJson(entries[index], index));
      }
      assert ps[..|ps|] == ps;
    }

    method RemoveBeyond(from: nat, to: nat)
      modifies this`broker
      ensures broker == ApplyAll(old(broker), Removals(family, from, to))
    {
      ghost var ps := Removals(family, from, to);
      var j := from;
      while j < to
        invariant from <= j && (j <= to || j == from)
        invariant broker == ApplyAll(old(broker), ps[..j - from])
      {
        ApplyNext(old(broker), ps, j - from);
        Send(EntryTopic(family, j), "");
        j := j + 1;
      }
      assert ps[..|ps|] == ps;
    }

    method Publish(entries: seq<Entry>, json: string, topicPerEntry: bool, max: nat)
      modifies this`broker
      ensures broker == ApplyAll(old(broker), Publications(family, entries, json, topicPerEntry, max))
    {
      ghost var ps := if topicPerEntry then EntryPublications(family, entries) else [];
      ghost var q := Publication(JsonTopic(family), json);
      if topicPerEntry {
        SendEntries(entries);
      }
      Send(JsonTopic(family), json);
      RemoveBeyond(|entries|, max);
      assert (ps + [q])[..|ps|] == ps;
      ApplyBoth(old(broker), ps + [q], Removals(family, |entries|, max));
    }

    /** Sorts, cuts, raises and stores the high-water count, then publishes. */
    method Refresh(retrieved: seq<Entry>, maxEntries: Int32, topicPerEntry: bool, json: string)
      modifies this`maxEntryCount, this`storedCount, this`broker
      ensures var entries := Cut(Sort(retrieved, BY_ID), maxEntries);
              var sent := |Publications(family, entries, json, topicPerEntry, maxEntryCount)|;
              State() == Step(family, old(State()), Update(entries, json, topicPerEntry, sent))
      ensures Consistent(family, old(State())) ==> Consistent(family, State())
      ensures Consistent(family, old(State())) && topicPerEntry && |retrieved| <= 0x8000_0000 ==>
                var n := if 0 <= maxEntries < |retrieved| then maxEntries else |retrieved|;
                var sorted := Sort(retrieved, BY_ID);
                && (forall i, j :: 0 <= i < j < |sorted| ==> sorted[i].id <= sorted[j].id)
                && Agrees(family, broker, sorted[..n])
    {
      var entries := Cut(Sort(retrieved, BY_ID), maxEntries);
      if |entries| > maxEntryCount {
        maxEntryCount := |entries|;
        storedCount := maxEntryCount;
      }
      Publish(entries, json, topicPerEntry, maxEntryCount);
      if Consistent(family, old(State())) {
        PublishEffect(family, old(broker), entries, json, topicPerEntry, maxEntryCount);
      }
      AscendingIds(Sort(retrieved, BY_ID));
      CutKeeps(Sort(retrieved, BY_ID), maxEntries);
    }
  }
}
