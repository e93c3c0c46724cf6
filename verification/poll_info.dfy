/** Reading a poll out of a tweet's card (utils/poll.ts): the binding map,
    the typed lookups, the choices and the assembled poll description. */
module PollInfo {
  import opened Wrappers
  import opened Text
  import opened TweetTypes

  /** `createBindingValueMap`'s result: binding name to value. Only lookups
      are made on it, so its insertion order is not kept. */
  type BindingMap = map<string, BindingValue>

  /** An entry the map takes: a non-empty key and a value. */
  predicate Usable(e: BindingEntry) {
    Truthy(e.key) && e.value.Some?
  }

  /** The entries in order, each overwriting an earlier one with the same
      key. */
  function FromEntries(entries: seq<BindingEntry>): (m: BindingMap)
    ensures forall k :: k in m ==> k != ""
    decreases |entries|
  {
    if entries == [] then map[]
    else
      var m := FromEntries(entries[..|entries| - 1]);
      var e := entries[|entries| - 1];
      if Usable(e) then m[e.key.value := e.value.value] else m
  }

  /** The value of the last usable entry with key `k`, read from the
      front. */
  function LastBinding(entries: seq<BindingEntry>, k: string): Option<BindingValue> {
    if entries == [] then None
    else
      var later := LastBinding(entries[1..], k);
      if later.Some? then later
      else if Usable(entries[0]) && entries[0].key.value == k then entries[0].value
      else None
  }

  lemma {:induction false} LastBindingSnoc(entries: seq<BindingEntry>, e: BindingEntry, k: string)
    ensures LastBinding(entries + [e], k) ==
            if Usable(e) && e.key.value == k then e.value else LastBinding(entries, k)
    decreases |entries|
  {
    if entries == [] {
      assert ([] + [e])[1..] == [];
    } else {
      assert (entries + [e])[0] == entries[0];
      assert (entries + [e])[1..] == entries[1..] + [e];
      LastBindingSnoc(entries[1..], e, k);
    }
  }

  /** A later entry with the same key wins: the map holds exactly the value
      of the last usable entry of each key. */
  lemma {:induction false} FromEntriesKeepsLast(entries: seq<BindingEntry>, k: string)
    ensures (if k in FromEntries(entries) then Some(FromEntries(entries)[k]) else None) == LastBinding(entries, k)
    decreases |entries|
  {
    if entries != [] {
      var init := entries[..|entries| - 1];
      var e := entries[|entries| - 1];
      assert entries == init + [e];
      FromEntriesKeepsLast(init, k);
      LastBindingSnoc(init, e, k);
    }
  }

  /** A record's fields as entries, in `Object.entries` order. */
  function RecordEntries(fields: seq<(string, Option<BindingValue>)>): (r: seq<BindingEntry>)
    ensures |r| == |fields|
    ensures forall i :: 0 <= i < |r| ==> r[i] == BindingEntry(Some(fields[i].0), fields[i].1)
  {
    if fields == [] then [] else [BindingEntry(Some(fields[0].0), fields[0].1)] + RecordEntries(fields[1..])
  }

  /** `createBindingValueMap`: empty without bindings; a list and a record
      are read the same way. */
  function BindingValueMap(b: Bindings): (m: BindingMap)
    ensures b.NoBindings? ==> m == map[]
    ensures forall k :: k in m ==> k != ""
  {
    match b
    case NoBindings => map[]
    case BindingList(entries) => FromEntries(entries)
    case BindingRecord(fields) => FromEntries(RecordEntries(fields))
  }

  /** `getString`: the string value, else the scribe key, else the long
      value, the first that is a non-empty string. */
  function GetString(m: BindingMap, key: string): (r: Option<string>)
    ensures r.Some? ==> key in m && r.value != ""
    ensures key !in m ==> r.None?
    ensures key in m ==>
              (Truthy(m[key].stringValue) ==> r == m[key].stringValue)
              && (!Truthy(m[key].stringValue) && Truthy(m[key].scribeKey) ==> r == m[key].scribeKey)
              && (!Truthy(m[key].stringValue) && !Truthy(m[key].scribeKey) ==>
                    r == (if Truthy(m[key].longValue) then m[key].longValue else None))
  {
    if key !in m then None
    else
      var v := m[key];
      if Truthy(v.stringValue) then v.stringValue
      else if Truthy(v.scribeKey) then v.scribeKey
      else if Truthy(v.longValue) then v.longValue
      else None
  }

  /** `getBoolean`: the boolean value when there is one, else a string
      value reading "true" or "false" in any casing. */
  function GetBoolean(m: BindingMap, key: string): (r: Option<bool>)
    ensures key !in m ==> r.None?
    ensures key in m && m[key].booleanValue.Some? ==> r == m[key].booleanValue
    ensures key in m && m[key].booleanValue.None? ==>
              (r == Some(true) <==> m[key].stringValue.Some? && ToLower(m[key].stringValue.value) == "true")
              && (r == Some(false) <==> m[key].stringValue.Some? && ToLower(m[key].stringValue.value) == "false")
  {
    if key !in m then None
    else
      var v := m[key];
      if v.booleanValue.Some? then v.booleanValue
      else if v.stringValue.Some? && ToLower(v.stringValue.value) == "true" then Some(true)
      else if v.stringValue.Some? && ToLower(v.stringValue.value) == "false" then Some(false)
      else None
  }

  datatype Choice = Choice(id: int, labelText: string, count: int)

  function LabelKey(index: nat): string {
    "choice" + NatToString(index) + "_label"
  }

  function CountKey(index: nat): string {
    "choice" + NatToString(index) + "_count"
  }

  /** The count of a choice: the leading integer of its count string, 0
      when there is none. */
  function CountOf(m: BindingMap, index: nat): int {
    var raw := GetString(m, CountKey(index));
    if raw.Some? then ParseInt(raw.value).GetOr(0) else 0
  }

  /** Choice `index`, present when its label is. */
  function ChoiceAt(m: BindingMap, index: nat): Option<Choice> {
    var text := GetString(m, LabelKey(index));
    if text.None? then None else Some(Choice(index, text.value, CountOf(m, index)))
  }

  /** `parseChoices` from index `from` on: the present choices among
      `from..4`, in ascending id order. */
  function ChoicesFrom(m: BindingMap, from: nat): (r: seq<Choice>)
    requires 1 <= from
    ensures from <= 5 ==> |r| <= 5 - from
    ensures from > 4 ==> r == []
    ensures forall j :: 0 <= j < |r| ==> from <= r[j].id <= 4 && ChoiceAt(m, r[j].id) == Some(r[j])
    ensures forall j, k :: 0 <= j < k < |r| ==> r[j].id < r[k].id
    ensures forall i :: from <= i <= 4 && ChoiceAt(m, i).Some? ==> ChoiceAt(m, i).value in r
    decreases 5 - from
  {
    if from > 4 then []
    else
      var rest := ChoicesFrom(m, from + 1);
      match ChoiceAt(m, from)
      case None => rest
      case Some(c) => [c] + rest
  }

  /** `parseChoices`: indices 1 to 4 in ascending order, a choice for each
      label present, its id the index. */
  function ParseChoices(m: BindingMap): (r: seq<Choice>)
    ensures |r| <= 4
    ensures forall j :: 0 <= j < |r| ==> 1 <= r[j].id <= 4 && ChoiceAt(m, r[j].id) == Some(r[j])
    ensures forall j, k :: 0 <= j < k < |r| ==> r[j].id < r[k].id
    ensures forall i :: 1 <= i <= 4 ==> (GetString(m, LabelKey(i)).Some? <==> exists j :: 0 <= j < |r| && r[j].id == i)
  {
    var r := ChoicesFrom(m, 1);
    ChoicesComplete(m, r);
    r
  }

  lemma ChoicesComplete(m: BindingMap, r: seq<Choice>)
    requires forall j :: 0 <= j < |r| ==> 1 <= r[j].id <= 4 && ChoiceAt(m, r[j].id) == Some(r[j])
    requires forall i :: 1 <= i <= 4 && ChoiceAt(m, i).Some? ==> ChoiceAt(m, i).value in r
    ensures forall i :: 1 <= i <= 4 ==> (GetString(m, LabelKey(i)).Some? <==> exists j :: 0 <= j < |r| && r[j].id == i)
  {
    forall i | 1 <= i <= 4 && GetString(m, LabelKey(i)).Some?
      ensures exists j :: 0 <= j < |r| && r[j].id == i
    {
      var c := ChoiceAt(m, i).value;
      var j :| 0 <= j < |r| && r[j] == c;
    }
  }

  /** The total of the choices' counts. */
  function SumCounts(cs: seq<Choice>): int {
    if cs == [] then 0 else cs[0].count + SumCounts(cs[1..])
  }

  /** `choices.reduce((sum, c) => sum + c.count, start)`. */
  function ReduceCounts(start: int, cs: seq<Choice>): int
    decreases |cs|
  {
    if cs == [] then start else ReduceCounts(start + cs[0].count, cs[1..])
  }

  /** The left-to-right reduction adds up to the sum of the counts. */
  lemma {:induction false} ReduceIsSum(start: int, cs: seq<Choice>)
    ensures ReduceCounts(start, cs) == start + SumCounts(cs)
    decreases |cs|
  {
    if cs != [] {
      ReduceIsSum(start + cs[0].count, cs[1..]);
    }
  }

  /** `TweetPollInfo`. */
  datatype Poll = Poll(
    cardUri: string,
    cardName: string,
    endpoint: Option<string>,
    countsAreFinal: bool,
    selectedChoiceId: Option<int>,
    endDateTime: Option<string>,
    lastUpdatedAt: Option<string>,
    durationMinutes: Option<int>,
    totalVotes: int,
    choices: seq<Choice>)

  /** The card's legacy part, when the tweet has one. */
  function LegacyCard(t: Tweet): Option<CardLegacy> {
    if t.card.Some? then t.card.value.legacy else None
  }

  /** `card.rest_id ?? legacy.url ?? getString(bindings, "card_url")`. */
  function CardUri(t: Tweet, legacy: CardLegacy, m: BindingMap): Option<string> {
    Or(if t.card.Some? then t.card.value.restId else None, Or(legacy.url, GetString(m, "card_url")))
  }

  /** A whole number read from an optional string, as `Number.parseInt`
      followed by `Number.isFinite`. */
  function ParsedWhole(raw: Option<string>): Option<int> {
    if raw.Some? then ParseInt(raw.value) else None
  }

  /** `extractPollInfo`: no poll without a card legacy, with an empty binding
      map, without a `choice1_label` binding, without a choice or without a
      card URI. */
  function ExtractPollInfo(t: Tweet): (r: Option<Poll>)
    ensures r.Some? <==>
              LegacyCard(t).Some?
              && var m := BindingValueMap(LegacyCard(t).value.bindings);
                 |m| > 0 && "choice1_label" in m && |ParseChoices(m)| > 0
                 && Truthy(CardUri(t, LegacyCard(t).value, m))
    ensures r.Some? ==>
              var m := BindingValueMap(LegacyCard(t).value.bindings);
              r.value.choices == ParseChoices(m)
              && r.value.totalVotes == SumCounts(r.value.choices)
              && r.value.cardUri == CardUri(t, LegacyCard(t).value, m).value
              && r.value.cardName == LegacyCard(t).value.name.GetOr("")
              && r.value.endpoint == GetString(m, "api")
              && r.value.countsAreFinal == GetBoolean(m, "counts_are_final").GetOr(false)
              && r.value.selectedChoiceId == ParsedWhole(GetString(m, "selected_choice"))
              && r.value.durationMinutes == ParsedWhole(GetString(m, "duration_minutes"))
  {
    var legacy := LegacyCard(t);
    if legacy.None? then None
    else
      var m := BindingValueMap(legacy.value.bindings);
      if |m| == 0 || "choice1_label" !in m then None
      else
        var choices := ParseChoices(m);
        if |choices| == 0 then None
        else
          var cardUri := CardUri(t, legacy.value, m);
          if !Truthy(cardUri) then None
          else
            ReduceIsSum(0, choices);
            Some(Poll(
              cardUri.value,
              legacy.value.name.GetOr(""),
              GetString(m, "api"),
              GetBoolean(m, "counts_are_final").GetOr(false),
              ParsedWhole(GetString(m, "selected_choice")),
              GetString(m, "end_datetime_utc"),
              GetString(m, "last_updated_datetime_utc"),
              ParsedWhole(GetString(m, "duration_minutes")),
              ReduceCounts(0, choices),
              choices))
  }

  /** A poll always has between one and four choices, with different ids,
      and the first label binding is present. */
  lemma PollShape(t: Tweet)
    requires ExtractPollInfo(t).Some?
    ensures var p := ExtractPollInfo(t).value;
            1 <= |p.choices| <= 4 && p.cardUri != ""
            && forall j, k :: 0 <= j < k < |p.choices| ==> p.choices[j].id != p.choices[k].id
  {
  }
}
