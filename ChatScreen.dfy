/**
 * The list logic of the chat screen (src/components/ChatScreen.jsx): the
 * ordered list of distinct dates handed to the date picker, the item list
 * with a date separator before each day's first message, the per-sender
 * colour cache, the group-chat test and the message-count badge.
 */
module ChatScreen {
  import opened Wrappers
  import opened JsText
  import opened Lists
  import opened ParseChat

  // ---------------------------------------------------------------- uniqueDates

  /** The non-empty dates of the records, in order (`msg.date` is tested for
      truthiness, and the empty string is the only falsy string). */
  function Dates(ms: seq<Record>): (ds: seq<string>)
    ensures forall d :: d in ds ==> d != ""
  {
    if ms == [] then []
    else
      var m := ms[|ms| - 1];
      Dates(ms[..|ms| - 1]) + (if m.date != "" then [m.date] else [])
  }

  lemma DatesSnoc(ms: seq<Record>, m: Record)
    ensures Dates(ms + [m]) == Dates(ms) + (if m.date != "" then [m.date] else [])
  {
    assert (ms + [m])[..|ms|] == ms;
  }

  /** Some record has date `d`. */
  ghost predicate HasDate(ms: seq<Record>, d: string)
  {
    exists k :: 0 <= k < |ms| && ms[k].date == d
  }

  lemma HasDateLast(ms: seq<Record>, d: string)
    requires ms != []
    ensures HasDate(ms, d) <==> HasDate(ms[..|ms| - 1], d) || ms[|ms| - 1].date == d
  {
    var init := ms[..|ms| - 1];
    if HasDate(init, d) {
      var k :| 0 <= k < |init| && init[k].date == d;
      assert ms[k].date == d;
    }
    if HasDate(ms, d) {
      var k :| 0 <= k < |ms| && ms[k].date == d;
      if k < |init| {
        assert init[k].date == d;
      }
    }
  }

  /** A date is listed exactly when it is non-empty and some record has it. */
  lemma {:induction false} DatesMembers(ms: seq<Record>, d: string)
    ensures d in Dates(ms) <==> d != "" && exists k :: 0 <= k < |ms| && ms[k].date == d
    decreases |ms|
  {
    if ms != [] {
      DatesMembers(ms[..|ms| - 1], d);
      HasDateLast(ms, d);
    }
  }

  /** One more record adds its date when it is non-empty and not yet seen. */
  lemma UniqueDatesStep(pre: seq<Record>, msg: Record, result: seq<string>, seen: set<string>)
    requires result == Dedup(Dates(pre))
    requires forall d :: d in seen <==> d in result
    ensures Dedup(Dates(pre + [msg])) ==
              if msg.date != "" && msg.date !in seen then result + [msg.date] else result
  {
    DatesSnoc(pre, msg);
    DedupSnoc(Dates(pre), msg.date);
    if msg.date == "" {
      assert Dates(pre + [msg]) == Dates(pre);
    }
  }

  /** `uniqueDates`: every non-empty date once, in order of first appearance,
      and nothing else. */
  method UniqueDates(messages: seq<Record>) returns (result: seq<string>)
    ensures result == Dedup(Dates(messages))
    ensures Distinct(result)
    ensures forall d :: d in result <==> d != "" && exists k :: 0 <= k < |messages| && messages[k].date == d
  {
    var seen: set<string> := {};
    result := [];
    for i := 0 to |messages|
      invariant result == Dedup(Dates(messages[..i]))
      invariant forall d :: d in seen <==> d in result
    {
      var msg := messages[i];
      assert messages[..i + 1] == messages[..i] + [msg];
      UniqueDatesStep(messages[..i], msg, result, seen);
      if msg.date != "" && msg.date !in seen {
        seen := seen + {msg.date};
        result := result + [msg.date];
      }
    }
    assert messages[..|messages|] == messages;
    UniqueDatesMembers(messages);
  }

  /** The distinct dates are exactly the non-empty dates of the records. */
  lemma UniqueDatesMembers(messages: seq<Record>)
    ensures forall d :: d in Dedup(Dates(messages)) <==>
              d != "" && exists k :: 0 <= k < |messages| && messages[k].date == d
  {
    forall d ensures d in Dedup(Dates(messages)) <==>
                       d != "" && exists k :: 0 <= k < |messages| && messages[k].date == d {
      DatesMembers(messages, d);
    }
  }

  // ---------------------------------------------------------------- renderedItems

  /** An entry of the rendered list: a date separator or a record. */
  datatype Item = Separator(date: string, id: string) | Entry(msg: Record)

  /** The key of the separator before a record: `date-${msg.id}`. */
  function SeparatorId(id: nat): string
  {
    "date-" + DecimalString(id)
  }

  /** Record `k` opens a day: it is the first, or its date differs from the
      one before (`lastDate` is always the previous record's date). */
  predicate StartsDay(ms: seq<Record>, k: nat)
    requires k < |ms|
  {
    k == 0 || ms[k - 1].date != ms[k].date
  }

  /** The items pushed for record `k`: a separator when it opens a day,
      then the record itself. */
  function ItemsFor(ms: seq<Record>, k: nat): seq<Item>
    requires k < |ms|
  {
    (if StartsDay(ms, k) then [Separator(ms[k].date, SeparatorId(ms[k].id))] else []) + [Entry(ms[k])]
  }

  /** The reference definition of `renderedItems`. */
  function Render(ms: seq<Record>): (items: seq<Item>)
    ensures |ms| <= |items| <= 2 * |ms|
  {
    if ms == [] then [] else Render(ms[..|ms| - 1]) + ItemsFor(ms, |ms| - 1)
  }

  /** Rendering one more record appends the items for it. */
  lemma RenderStep(ms: seq<Record>, i: nat)
    requires i < |ms|
    ensures Render(ms[..i + 1]) == Render(ms[..i]) + ItemsFor(ms, i)
  {
    assert ms[..i + 1][..i] == ms[..i];
  }

  /** `renderedItems` as the source builds it, with `lastDate` starting as `null`. */
  method RenderedItems(messages: seq<Record>) returns (items: seq<Item>)
    ensures items == Render(messages)
  {
    items := [];
    var lastDate: Option<string> := None;
    for i := 0 to |messages|
      invariant items == Render(messages[..i])
      invariant lastDate == if i == 0 then None else Some(messages[i - 1].date)
    {
      var msg := messages[i];
      RenderStep(messages, i);
      if lastDate != Some(msg.date) {
        items := items + [Separator(msg.date, SeparatorId(msg.id))];
        lastDate := Some(msg.date);
      }
      items := items + [Entry(msg)];
    }
    assert messages[..|messages|] == messages;
  }

  /** The records among the items, in order. */
  function Entries(items: seq<Item>): seq<Record>
  {
    if items == [] then []
    else
      var last := items[|items| - 1];
      Entries(items[..|items| - 1]) + (if last.Entry? then [last.msg] else [])
  }

  lemma {:induction false} EntriesAppend(a: seq<Item>, b: seq<Item>)
    ensures Entries(a + b) == Entries(a) + Entries(b)
    decreases |b|
  {
    if b == [] {
      assert a + b == a;
    } else {
      var n := |b| - 1;
      assert (a + b)[..|a + b| - 1] == a + b[..n];
      EntriesAppend(a, b[..n]);
    }
  }

  /** The items pushed for a record hold just that record. */
  lemma EntriesItemsFor(ms: seq<Record>, k: nat)
    requires k < |ms|
    ensures Entries(ItemsFor(ms, k)) == [ms[k]]
  {
    var items := ItemsFor(ms, k);
    assert items[|items| - 1] == Entry(ms[k]);
    if StartsDay(ms, k) {
      var sep := [Separator(ms[k].date, SeparatorId(ms[k].id))];
      assert items[..|items| - 1] == sep;
      assert sep[..0] == [];
      assert Entries(sep) == [];
      assert Entries(items) == Entries(sep) + [ms[k]];
    } else {
      assert items[..|items| - 1] == [];
    }
  }

  /** Dropping the separators gives back the records, in order. */
  lemma {:induction false} EntriesRender(ms: seq<Record>)
    ensures Entries(Render(ms)) == ms
    decreases |ms|
  {
    if ms != [] {
      var n := |ms| - 1;
      var init, last := ms[..n], ms[n];
      var head, items := Render(init), ItemsFor(ms, n);
      assert Render(ms) == head + items;
      assert ms == init + [last] by { SplitLast(ms); }
      assert Entries(head) == init by { EntriesRender(init); }
      assert Entries(items) == [last] by { EntriesItemsFor(ms, n); }
      EntriesAppend(head, items);
    }
  }

  /** A non-empty sequence is its front followed by its last record. */
  lemma SplitLast(ms: seq<Record>)
    requires ms != []
    ensures ms == ms[..|ms| - 1] + [ms[|ms| - 1]]
  {
  }

  /** Each separator is followed by a record of its date, whose id names
      it; so two separators are never adjacent and the list never ends with
      one. */
  lemma {:induction false} SeparatorFollowed(ms: seq<Record>, j: nat)
    requires j < |Render(ms)| && Render(ms)[j].Separator?
    ensures j + 1 < |Render(ms)| && Render(ms)[j + 1].Entry?
    ensures Render(ms)[j] == Separator(Render(ms)[j + 1].msg.date, SeparatorId(Render(ms)[j + 1].msg.id))
    decreases |ms|
  {
    var n := |ms| - 1;
    var head := Render(ms[..n]);
    if j < |head| {
      SeparatorFollowed(ms[..n], j);
    }
  }

  /** The items of a prefix of the records are a prefix of the items. */
  lemma {:induction false} RenderPrefix(ms: seq<Record>, k: nat)
    requires k <= |ms|
    ensures Render(ms[..k]) <= Render(ms)
    decreases |ms| - k
  {
    if k < |ms| {
      var n := |ms| - 1;
      RenderPrefix(ms[..n], k);
      assert ms[..n][..k] == ms[..k];
    } else {
      assert ms[..k] == ms;
    }
  }

  /** Record `k` sits at the end of the items of the first `k + 1` records,
      right after a separator of its date exactly when it opens a day, and
      otherwise right after the previous record. */
  lemma RenderPlacement(ms: seq<Record>, k: nat)
    requires k < |ms|
    ensures var items := Render(ms);
      var p := |Render(ms[..k + 1])| - 1;
      && 0 <= p < |items| && items[p] == Entry(ms[k])
      && (StartsDay(ms, k) ==> p >= 1 && items[p - 1] == Separator(ms[k].date, SeparatorId(ms[k].id)))
      && (!StartsDay(ms, k) ==> p >= 1 && items[p - 1] == Entry(ms[k - 1]))
  {
    var pre := ms[..k + 1];
    RenderPrefix(ms, k + 1);
    assert pre[..k] == ms[..k];
    assert pre[k] == ms[k];
    assert StartsDay(pre, k) == StartsDay(ms, k);
    if !StartsDay(ms, k) {
      var init := ms[..k];
      assert init[..k - 1] == ms[..k - 1];
      assert init[k - 1] == ms[k - 1];
    }
  }

  /** A non-empty list opens with the separator of the first record. */
  lemma RenderStarts(ms: seq<Record>)
    requires ms != []
    ensures Render(ms)[0] == Separator(ms[0].date, SeparatorId(ms[0].id))
  {
    RenderPlacement(ms, 0);
    assert ms[..1][..0] == [];
  }

  // ---------------------------------------------------------------- getSenderColor

  /** `SENDER_COLORS`. */
  const Palette: seq<string> :=
    ["#a5b4fc", "#f9a8d4", "#c4b5fd", "#6ee7b7", "#93c5fd",
     "#67e8f9", "#fcd34d", "#fdba74", "#cbd5e1", "#d8b4fe"]

  /** The colours are ten different strings. */
  lemma PaletteDistinct()
    ensures |Palette| == 10
    ensures Distinct(Palette)
  {
    var tags := ["a5", "f9", "c4", "6e", "93", "67", "fc", "fd", "cb", "d8"];
    forall i | 0 <= i < 10 ensures Palette[i][1..3] == tags[i] {
    }
    forall i, j | 0 <= i < j < 10 ensures Palette[i] != Palette[j] {
      assert tags[i] != tags[j];
    }
  }

  /** `colors` gives the `i`-th sender of `order` the colour `Palette[i % 10]`,
      and holds no other sender. */
  ghost predicate ColorAssignment(colors: map<string, string>, order: seq<string>)
  {
    && Distinct(order)
    && |colors| == |order|
    && (forall s :: s in colors <==> s in order)
    && (forall i :: 0 <= i < |order| ==> colors[order[i]] == Palette[i % |Palette|])
  }

  /** Two senders share a colour exactly when ten, twenty, ... other
      senders came between their first appearances. */
  lemma ColorsRepeat(colors: map<string, string>, order: seq<string>, i: nat, j: nat)
    requires ColorAssignment(colors, order)
    requires i < j < |order|
    ensures colors[order[i]] == colors[order[j]] <==> (j - i) % 10 == 0
  {
    var ci, cj := colors[order[i]], colors[order[j]];
    assert ci == Palette[i % 10] && cj == Palette[j % 10];
    PaletteDistinct();
    assert ci == cj <==> i % 10 == j % 10;
    SameRemainder(i, j);
  }

  lemma SameRemainder(i: nat, j: nat)
    requires i < j
    ensures (j - i) % 10 == 0 <==> i % 10 == j % 10
  {
    var q, r := i / 10, i % 10;
    var q', r' := j / 10, j % 10;
    assert j - i == (q' - q) * 10 + (r' - r);
  }

  /** The order of first appearance decides the whole cache. */
  lemma ColorAssignmentUnique(c1: map<string, string>, c2: map<string, string>, order: seq<string>)
    requires ColorAssignment(c1, order) && ColorAssignment(c2, order)
    ensures c1 == c2
  {
    forall s | s in c1 ensures c2[s] == c1[s] {
      var i :| 0 <= i < |order| && order[i] == s;
    }
    assert c1.Keys == c2.Keys;
  }

  /** A new sender gets the next colour in turn. */
  lemma ColorAssignmentAdd(colors: map<string, string>, order: seq<string>, s: string)
    requires ColorAssignment(colors, order)
    requires s !in colors
    ensures ColorAssignment(colors[s := Palette[|colors| % |Palette|]], order + [s])
  {
    var c := colors[s := Palette[|colors| % |Palette|]];
    var o := order + [s];
    assert Distinct(o) by {
      forall i, j | 0 <= i < j < |o| ensures o[i] != o[j] {
        if j == |order| {
          assert o[i] == order[i] && order[i] in order;
        } else {
          assert o[i] == order[i] && o[j] == order[j];
        }
      }
    }
    forall i | 0 <= i < |o| ensures c[o[i]] == Palette[i % |Palette|] {
      if i < |order| {
        assert o[i] == order[i] && order[i] in order;
      }
    }
  }

  /** Asking about one more sender keeps the cache in step with the order of
      first appearance of the senders asked about. */
  lemma ColorAssignmentStep(colors: map<string, string>, calls: seq<string>, s: string)
    requires ColorAssignment(colors, Dedup(calls))
    ensures ColorAssignment(if s in colors then colors else colors[s := Palette[|colors| % |Palette|]],
                            Dedup(calls + [s]))
  {
    DedupSnoc(calls, s);
    if s !in colors {
      ColorAssignmentAdd(colors, Dedup(calls), s);
    }
  }

  /** `colorMap.current`, with the senders asked about so far as ghost state. */
  class ColorCache {
    var colors: map<string, string>
    ghost var calls: seq<string>

    /** The `k`-th distinct sender asked about has colour `Palette[k % 10]`. */
    ghost predicate Valid()
      reads this
    {
      ColorAssignment(colors, Dedup(calls))
    }

    constructor()
      ensures Valid() && colors == map[] && calls == []
    {
      colors := map[];
      calls := [];
    }

    /** `getSenderColor(sender, colorMap)`: a colour is stored only for a
        sender without one (stored colours are non-empty, so the falsy test
        is an absence test), the next one in turn; stored colours never
        change. */
    method SenderColor(sender: string) returns (color: string)
      requires Valid()
      modifies this
      ensures Valid()
      ensures calls == old(calls) + [sender]
      ensures sender in old(colors) ==> colors == old(colors)
      ensures sender !in old(colors) ==>
                colors == old(colors)[sender := Palette[|old(colors)| % |Palette|]]
      ensures color == colors[sender]
    {
      ColorAssignmentStep(colors, calls, sender);
      if sender !in colors {
        var idx := |colors| % |Palette|;
        colors := colors[sender := Palette[idx]];
      }
      calls := calls + [sender];
      color := colors[sender];
    }
  }

  // ---------------------------------------------------------------- header

  /** `isGroupChat`. */
  predicate IsGroupChat(participants: seq<string>)
  {
    |participants| > 2
  }

  /** A group chat is named by its number of participants. */
  lemma GroupChatName(records: seq<Record>)
    requires IsGroupChat(Assemble(records).participants)
    ensures var chat := Assemble(records);
      chat.chatName == "Group (" + NumToString(Int(|chat.participants|)) + " participants)"
  {
    AssembleName(records);
  }

  /** The badge: `messages.filter((m) => m.type === "message").length`. */
  function MessageCount(ms: seq<Record>): (n: nat)
    ensures n <= |ms|
  {
    if ms == [] then 0
    else MessageCount(ms[..|ms| - 1]) + (if ms[|ms| - 1].kind == Message then 1 else 0)
  }

  /** The positions of the message records. */
  ghost function MessageIndices(ms: seq<Record>): set<nat>
  {
    set k: nat | k < |ms| && ms[k].kind == Message
  }

  /** The badge counts exactly the message records. */
  lemma {:induction false} MessageCountIndices(ms: seq<Record>)
    ensures MessageCount(ms) == |MessageIndices(ms)|
    decreases |ms|
  {
    if ms != [] {
      var n := |ms| - 1;
      MessageCountIndices(ms[..n]);
      var before := MessageIndices(ms[..n]);
      assert n !in before;
      if ms[n].kind == Message {
        assert MessageIndices(ms) == before + {n};
      } else {
        assert MessageIndices(ms) == before;
      }
    }
  }

  /** Two lists of records of the same kinds have the same badge count. */
  lemma {:induction false} MessageCountKinds(a: seq<Record>, b: seq<Record>)
    requires |a| == |b|
    requires forall k :: 0 <= k < |a| ==> a[k].kind == b[k].kind
    ensures MessageCount(a) == MessageCount(b)
    decreases |a|
  {
    if a != [] {
      MessageCountKinds(a[..|a| - 1], b[..|b| - 1]);
    }
  }

  /** Each counted sender comes from its own message record. */
  lemma {:induction false} SendersCount(rs: seq<Record>)
    ensures |Senders(rs)| <= MessageCount(rs)
    decreases |rs|
  {
    if rs != [] {
      SendersCount(rs[..|rs| - 1]);
    }
  }

  /** In a parsed chat there are never more participants than the badge
      counts messages. */
  lemma ParticipantsAtMostMessages(records: seq<Record>)
    ensures var chat := Assemble(records);
      |chat.participants| <= MessageCount(chat.messages)
  {
    var chat := Assemble(records);
    SendersCount(records);
    MarkKeeps(records, chat.owner);
    MessageCountKinds(records, chat.messages);
  }
}
