/**
 * `parseChat` (src/utils/parseChat.js): the text of an export becomes an
 * ordered list of records, the participants, the owner and a display name.
 *
 * The text is split on line feeds. A line that matches the start-of-entry
 * pattern opens a record; any other line is appended, verbatim and after a
 * line feed, to the record that is open, and dropped when none is. Each
 * record is classified as a system notice or a message when it is opened.
 * Then the senders are counted, the owner is inferred, the owner's messages
 * are marked, the ids are renumbered and the display name is derived.
 *
 * `Records` is the reference definition of the first pass, block by block;
 * `ParseChat` is the pass as the source runs it, line by line, and is proved
 * to compute `Parse`, the reference definition of the whole function.
 */
module ParseChat {
  import opened Wrappers
  import opened JsText
  import opened Lists
  import opened StartLine
  import opened Classify

  /** `type`: "message" or "system". */
  datatype Kind = Message | System

  /** One message object: `sender` is `null` for a system record. */
  datatype Record = Record(id: nat, kind: Kind, sender: Option<string>, message: string,
                           date: string, time: string, isOwner: bool)

  /** What `parseChat` returns; an absent owner is `undefined`. */
  datatype Chat = Chat(messages: seq<Record>, participants: seq<string>, owner: Option<string>, chatName: string)

  // ---------------------------------------------------------------- opening a record

  /** `timeStr`: the time, and the meridiem in upper case after a space when
      there is one. */
  function TimeDisplay(time: string, meridiem: Option<string>): string
  {
    if meridiem.Some? then time + " " + AsciiUpperString(meridiem.value) else time
  }

  /** The record a start line opens, with the provisional id `id`: a system
      notice when `isSystemMessage` says so, otherwise a message split into
      trimmed sender and text, with the source's fallback to a system notice
      when the split fails. */
  function Open(id: nat, m: StartMatch): (r: Record)
    ensures r.id == id && r.date == m.date && !r.isOwner
    ensures r.kind == System <==> IsSystemMessage(m.body)
    ensures r.kind == System <==> r.sender.None?
  {
    var timeStr := TimeDisplay(m.time, m.meridiem);
    if IsSystemMessage(m.body) then
      Record(id, System, None, Trim(m.body), m.date, timeStr, false)
    else
      match SenderSplit(m.body)
      case Some((sender, text)) =>
        Record(id, Message, Some(Trim(sender)), Trim(text), m.date, timeStr, false)
      case None =>
        Record(id, System, None, Trim(m.body), m.date, timeStr, false)
  }

  /** What an opened record holds: the given id, the date, the time with its
      meridiem, not yet the owner's; a system notice with no sender and the
      trimmed body exactly when `isSystemMessage` holds; otherwise a message
      whose sender and text are the trimmed parts around the first `: `. */
  lemma OpenShape(id: nat, m: StartMatch)
    ensures var r := Open(id, m);
      && r.id == id && r.date == m.date && r.time == TimeDisplay(m.time, m.meridiem) && !r.isOwner
      && (r.kind == System <==> IsSystemMessage(m.body))
      && (r.kind == System ==> r.sender == None && r.message == Trim(m.body))
      && (r.kind == Message ==>
            exists k: nat :: SenderShapeAt(m.body, k)
                        && r.sender == Some(Trim(m.body[..k])) && r.message == Trim(m.body[k + 2..]))
  {
    if !IsSystemMessage(m.body) {
      var (sender, text) := SenderSplit(m.body).value;
      assert SenderShapeAt(m.body, |sender|);
    }
  }

  /** Opening with another id changes only the id. */
  lemma OpenId(id: nat, m: StartMatch)
    ensures Open(id, m) == Open(0, m).(id := id)
  {
  }

  /** The fallback branch of the classification is never taken: a body that
      is not a system notice always splits into sender and text. */
  lemma FallbackUnreachable(body: string)
    requires !IsSystemMessage(body)
    ensures SenderSplit(body).Some?
  {
  }

  /** A meridiem is shown as `AM` or `PM` after the time, whatever its case
      in the export. */
  lemma TimeDisplayMeridiem(time: string, m: string)
    requires m in Meridiems
    ensures TimeDisplay(time, Some(m)) == time + (if m[0] == 'a' || m[0] == 'A' then " AM" else " PM")
    ensures TimeDisplay(time, Some(m))[..|time|] == time
  {
    var u := AsciiUpperString(m);
    assert u == "AM" || u == "PM";
  }

  // ---------------------------------------------------------------- segmentation

  /** A line as the classifier sees it: the start of an entry, with the
      record it opens (numbered when it is placed), or any other line. */
  datatype Line = Start(r: Record) | Other(text: string)

  function ReadLine(line: string): (l: Line)
    ensures l.Start? <==> IsStart(line)
    ensures l.Other? ==> l.text == line
  {
    match MatchStart(line)
    case Some(m) => Start(Open(0, m))
    case None => Other(line)
  }

  /** Each line read in turn. */
  function ReadLines(lines: seq<string>): (ls: seq<Line>)
    ensures |ls| == |lines|
  {
    if lines == [] then [] else ReadLines(lines[..|lines| - 1]) + [ReadLine(lines[|lines| - 1])]
  }

  /** Appending a continuation line to the open record. */
  function Continue(r: Record, line: string): Record
  {
    r.(message := r.message + "\n" + line)
  }

  /** The text continuation lines add to a record: each line after a line
      feed, untrimmed. */
  function Continuation(lines: seq<Line>): string
    requires forall k :: 0 <= k < |lines| ==> lines[k].Other?
    decreases |lines|
  {
    if lines == [] then "" else "\n" + lines[0].text + Continuation(lines[1..])
  }

  /** The number of lines before the first start line. */
  function RunLength(lines: seq<Line>): (n: nat)
    ensures n <= |lines|
    ensures forall k :: 0 <= k < n ==> lines[k].Other?
    ensures n < |lines| ==> lines[n].Start?
    decreases |lines|
  {
    if lines == [] || lines[0].Start? then 0 else 1 + RunLength(lines[1..])
  }

  /** Where the block of the first line ends: at the next start line, or at
      the end of the lines. */
  function BlockEnd(lines: seq<Line>): (e: nat)
    requires lines != []
    ensures 1 <= e <= |lines|
    ensures forall k :: 1 <= k < e ==> lines[k].Other?
    ensures e < |lines| ==> lines[e].Start?
  {
    1 + RunLength(lines[1..])
  }

  /** The record a start line opens, numbered `base`, with the continuation
      lines of its block appended to its message. */
  function Block(lines: seq<Line>, base: nat): Record
    requires lines != [] && lines[0].Start?
  {
    var r := lines[0].r.(id := base);
    r.(message := r.message + Continuation(lines[1..BlockEnd(lines)]))
  }

  /** The records of `lines`, numbered from `base`: lines before the first
      start line are dropped; each start line opens a record whose message
      is followed by the continuation lines up to the next start line. */
  function Records(lines: seq<Line>, base: nat): (rs: seq<Record>)
    ensures |rs| <= |lines|
    decreases |lines|
  {
    if lines == [] then []
    else if lines[0].Other? then Records(lines[1..], base)
    else [Block(lines, base)] + Records(lines[BlockEnd(lines)..], base + 1)
  }

  /** How many of the lines are start lines. */
  function StartCount(lines: seq<Line>): (n: nat)
    ensures n <= |lines|
    decreases |lines|
  {
    if lines == [] then 0 else (if lines[0].Start? then 1 else 0) + StartCount(lines[1..])
  }

  // ---------------------------------------------------------------- segmentation: properties

  lemma {:induction false} StartCountAppend(a: seq<Line>, b: seq<Line>)
    ensures StartCount(a + b) == StartCount(a) + StartCount(b)
    decreases |a|
  {
    if a != [] {
      assert (a + b)[0] == a[0];
      assert (a + b)[1..] == a[1..] + b;
      StartCountAppend(a[1..], b);
    } else {
      assert a + b == b;
    }
  }

  lemma {:induction false} StartCountNone(a: seq<Line>)
    requires forall k :: 0 <= k < |a| ==> a[k].Other?
    ensures StartCount(a) == 0
    decreases |a|
  {
    if a != [] {
      StartCountNone(a[1..]);
    }
  }

  /** One record per start line. */
  lemma {:induction false} RecordsCount(lines: seq<Line>, base: nat)
    ensures |Records(lines, base)| == StartCount(lines)
    decreases |lines|
  {
    if lines != [] {
      if lines[0].Other? {
        RecordsCount(lines[1..], base);
      } else {
        RecordsCount(lines[BlockEnd(lines)..], base + 1);
        RecordsCountBlock(lines, base);
      }
    }
  }

  /** The step of `RecordsCount` for lines that open with a start line. */
  lemma RecordsCountBlock(lines: seq<Line>, base: nat)
    requires lines != [] && lines[0].Start?
    requires |Records(lines[BlockEnd(lines)..], base + 1)| == StartCount(lines[BlockEnd(lines)..])
    ensures |Records(lines, base)| == StartCount(lines)
  {
    StartCountBlock(lines);
  }

  /** The first block holds one start line. */
  lemma StartCountBlock(lines: seq<Line>)
    requires lines != [] && lines[0].Start?
    ensures StartCount(lines) == 1 + StartCount(lines[BlockEnd(lines)..])
  {
    var e := BlockEnd(lines);
    assert lines[1..] == lines[1..e] + lines[e..];
    StartCountAppend(lines[1..e], lines[e..]);
    StartCountNone(lines[1..e]);
  }

  /** The records are numbered densely from `base`, in order. */
  lemma {:induction false} RecordsIds(lines: seq<Line>, base: nat)
    ensures forall k :: 0 <= k < |Records(lines, base)| ==> Records(lines, base)[k].id == base + k
    decreases |lines|
  {
    if lines != [] {
      if lines[0].Other? {
        RecordsIds(lines[1..], base);
      } else {
        RecordsIds(lines[BlockEnd(lines)..], base + 1);
      }
    }
  }

  /** Lines before the first start line are discarded. */
  lemma {:induction false} LeadingLinesDropped(junk: seq<Line>, rest: seq<Line>, base: nat)
    requires forall k :: 0 <= k < |junk| ==> junk[k].Other?
    ensures Records(junk + rest, base) == Records(rest, base)
    decreases |junk|
  {
    if junk != [] {
      assert (junk + rest)[0] == junk[0];
      assert (junk + rest)[1..] == junk[1..] + rest;
      LeadingLinesDropped(junk[1..], rest, base);
    } else {
      assert junk + rest == rest;
    }
  }

  /** A start line followed by continuation lines and then the next start
      line (or the end): one record, whose message is the opening text
      followed by each continuation line after a line feed, untrimmed. */
  lemma {:induction false} RecordBlock(r: Record, cont: seq<Line>, rest: seq<Line>, base: nat)
    requires forall k :: 0 <= k < |cont| ==> cont[k].Other?
    requires rest == [] || rest[0].Start?
    ensures Records([Start(r)] + cont + rest, base)
         == [r.(id := base, message := r.message + Continuation(cont))] + Records(rest, base + 1)
  {
    var lines := [Start(r)] + cont + rest;
    assert lines[1..] == cont + rest;
    RunLengthPrefix(cont, rest);
    assert lines[1..1 + |cont|] == cont;
    assert lines[1 + |cont|..] == rest;
  }

  lemma {:induction false} RunLengthPrefix(cont: seq<Line>, rest: seq<Line>)
    requires forall k :: 0 <= k < |cont| ==> cont[k].Other?
    requires rest == [] || rest[0].Start?
    ensures RunLength(cont + rest) == |cont|
    decreases |cont|
  {
    if cont != [] {
      assert (cont + rest)[1..] == cont[1..] + rest;
      RunLengthPrefix(cont[1..], rest);
    } else {
      assert cont + rest == rest;
    }
  }

  lemma {:induction false} ContinuationSnoc(lines: seq<Line>, t: string)
    requires forall k :: 0 <= k < |lines| ==> lines[k].Other?
    ensures Continuation(lines + [Other(t)]) == Continuation(lines) + "\n" + t
    decreases |lines|
  {
    if lines == [] {
      assert [] + [Other(t)] == [Other(t)];
    } else {
      assert (lines + [Other(t)])[1..] == lines[1..] + [Other(t)];
      ContinuationSnoc(lines[1..], t);
    }
  }

  lemma {:induction false} RunLengthSnoc(lines: seq<Line>, l: Line)
    ensures RunLength(lines + [l]) ==
              if RunLength(lines) < |lines| then RunLength(lines)
              else if l.Start? then |lines| else |lines| + 1
    decreases |lines|
  {
    if lines == [] {
      assert [] + [l] == [l];
    } else {
      assert (lines + [l])[1..] == lines[1..] + [l];
      if lines[0].Other? {
        RunLengthSnoc(lines[1..], l);
      }
    }
  }

  /** What the line-by-line pass does with one more line: a start line
      appends its record, numbered after the others; another line extends
      the last record, or changes nothing when there is none. */
  function Extend(rs: seq<Record>, l: Line, base: nat): seq<Record>
  {
    if l.Start? then rs + [l.r.(id := base + |rs|)]
    else if rs == [] then []
    else rs[..|rs| - 1] + [Continue(rs[|rs| - 1], l.text)]
  }

  lemma ExtendCons(f: Record, t: seq<Record>, l: Line, base: nat)
    requires t != []
    ensures Extend([f] + t, l, base) == [f] + Extend(t, l, base + 1)
  {
    if !l.Start? {
      assert ([f] + t)[..|t|] == [f] + t[..|t| - 1];
    }
  }

  lemma RecordsSingle(l: Line, base: nat)
    ensures Records([l], base) == Extend([], l, base)
  {
    assert [l][1..] == [];
    if l.Start? {
      var r := l.r.(id := base);
      assert [l][1..1 + 0] == [];
      assert r.message + "" == r.message;
      assert r.(message := r.message) == r;
    }
  }

  /** Where the first block ends once one more line is added: where it
      ended, unless it ran to the end and the new line continues it. */
  lemma BlockEndSnoc(lines: seq<Line>, l: Line)
    requires lines != []
    ensures BlockEnd(lines + [l]) ==
              if BlockEnd(lines) < |lines| then BlockEnd(lines)
              else if l.Start? then |lines| else |lines| + 1
  {
    assert (lines + [l])[1..] == lines[1..] + [l];
    RunLengthSnoc(lines[1..], l);
  }

  /** A start line followed only by continuation lines is one record. */
  lemma RecordsOneBlock(lines: seq<Line>, base: nat)
    requires lines != [] && lines[0].Start?
    requires BlockEnd(lines) == |lines|
    ensures Records(lines, base) == [Block(lines, base)]
  {
    assert lines[|lines|..] == [];
  }

  /** A block that runs to the end takes one more continuation line. */
  lemma BlockContinued(lines: seq<Line>, t: string, base: nat)
    requires lines != [] && lines[0].Start?
    requires BlockEnd(lines) == |lines|
    requires BlockEnd(lines + [Other(t)]) == |lines| + 1
    ensures Block(lines + [Other(t)], base) == Continue(Block(lines, base), t)
  {
    var all := lines + [Other(t)];
    assert all[0] == lines[0];
    assert all[1..|all|] == lines[1..|lines|] + [Other(t)];
    ContinuationSnoc(lines[1..|lines|], t);
    var r := lines[0].r;
    var c := Continuation(lines[1..|lines|]);
    assert r.message + c + "\n" + t == r.message + (c + "\n" + t);
  }

  /** The record after a start line that is followed only by continuation
      lines takes one more continuation line. */
  lemma RecordsLastBlock(lines: seq<Line>, t: string, base: nat)
    requires lines != [] && lines[0].Start?
    requires BlockEnd(lines) == |lines|
    ensures Records(lines + [Other(t)], base) == Extend(Records(lines, base), Other(t), base)
  {
    var all := lines + [Other(t)];
    assert all[0] == lines[0];
    BlockEndSnoc(lines, Other(t));
    RecordsOneBlock(lines, base);
    RecordsOneBlock(all, base);
    BlockContinued(lines, t, base);
  }

  /** A start line followed only by continuation lines, then a start line. */
  lemma RecordsLastBlockStart(lines: seq<Line>, l: Line, base: nat)
    requires lines != [] && lines[0].Start? && l.Start?
    requires BlockEnd(lines) == |lines|
    ensures Records(lines + [l], base) == Extend(Records(lines, base), l, base)
  {
    var all := lines + [l];
    var e := |lines|;
    assert all[0] == lines[0];
    BlockEndSnoc(lines, l);
    assert all[1..e] == lines[1..e];
    assert Block(all, base) == Block(lines, base);
    assert all[e..] == [l];
    RecordsSingle(l, base + 1);
    RecordsOneBlock(lines, base);
  }

  /** A line added after a later start line leaves the first block as it
      is. */
  lemma BlockKept(lines: seq<Line>, l: Line, base: nat)
    requires lines != [] && lines[0].Start?
    requires BlockEnd(lines) < |lines|
    ensures BlockEnd(lines + [l]) == BlockEnd(lines)
    ensures Block(lines + [l], base) == Block(lines, base)
    ensures (lines + [l])[BlockEnd(lines)..] == lines[BlockEnd(lines)..] + [l]
  {
    var all := lines + [l];
    var e := BlockEnd(lines);
    assert all[0] == lines[0];
    BlockEndSnoc(lines, l);
    assert all[1..e] == lines[1..e];
  }

  /** A later start line opens a record of its own. */
  lemma RecordsLaterBlock(lines: seq<Line>, base: nat)
    requires lines != [] && BlockEnd(lines) < |lines|
    ensures Records(lines[BlockEnd(lines)..], base) != []
  {
    assert lines[BlockEnd(lines)..][0].Start?;
  }

  /** A start line followed by a later start line: the block is unchanged
      and the rest takes the new line. */
  lemma RecordsInnerBlock(lines: seq<Line>, l: Line, base: nat)
    requires lines != [] && lines[0].Start?
    requires BlockEnd(lines) < |lines|
    ensures Records(lines + [l], base) == [Block(lines, base)] + Records(lines[BlockEnd(lines)..] + [l], base + 1)
  {
    assert (lines + [l])[0] == lines[0];
    BlockKept(lines, l, base);
  }

  /** The step of `RecordsSnoc` for a line added after a later block. */
  lemma RecordsSnocInner(lines: seq<Line>, l: Line, base: nat)
    requires lines != [] && lines[0].Start?
    requires BlockEnd(lines) < |lines|
    requires Records(lines[BlockEnd(lines)..] + [l], base + 1)
          == Extend(Records(lines[BlockEnd(lines)..], base + 1), l, base + 1)
    ensures Records(lines + [l], base) == Extend(Records(lines, base), l, base)
  {
    RecordsStart(lines, base);
    RecordsInnerBlock(lines, l, base);
    ExtendBlock(lines, l, base);
  }

  /** The records of lines that open with a start line: the record of the
      first block, then those of the rest. */
  lemma RecordsStart(lines: seq<Line>, base: nat)
    requires lines != [] && lines[0].Start?
    ensures Records(lines, base) == [Block(lines, base)] + Records(lines[BlockEnd(lines)..], base + 1)
  {
  }

  /** A line added after a later block leaves the first record alone. */
  lemma ExtendBlock(lines: seq<Line>, l: Line, base: nat)
    requires lines != [] && lines[0].Start?
    requires BlockEnd(lines) < |lines|
    ensures Extend([Block(lines, base)] + Records(lines[BlockEnd(lines)..], base + 1), l, base)
         == [Block(lines, base)] + Extend(Records(lines[BlockEnd(lines)..], base + 1), l, base + 1)
  {
    RecordsLaterBlock(lines, base + 1);
    ExtendCons(Block(lines, base), Records(lines[BlockEnd(lines)..], base + 1), l, base);
  }

  /** The line-by-line pass agrees with the block-by-block definition:
      adding a line to the input adds it to the records as `Extend` says. */
  lemma {:induction false} RecordsSnoc(lines: seq<Line>, l: Line, base: nat)
    ensures Records(lines + [l], base) == Extend(Records(lines, base), l, base)
    decreases |lines|
  {
    if lines == [] {
      assert lines + [l] == [l];
      RecordsSingle(l, base);
    } else if lines[0].Other? {
      assert (lines + [l])[0] == lines[0];
      assert (lines + [l])[1..] == lines[1..] + [l];
      RecordsSnoc(lines[1..], l, base);
    } else {
      if BlockEnd(lines) < |lines| {
        RecordsSnoc(lines[BlockEnd(lines)..], l, base + 1);
        RecordsSnocInner(lines, l, base);
      } else if l.Start? {
        RecordsLastBlockStart(lines, l, base);
      } else {
        RecordsLastBlock(lines, l.text, base);
      }
    }
  }

  // ---------------------------------------------------------------- aggregation

  /** The senders that are counted, in order: those of message records whose
      sender is not the empty string. */
  function Senders(rs: seq<Record>): (s: seq<string>)
    ensures forall x :: x in s ==> x != ""
    ensures |s| <= |rs|
  {
    if rs == [] then []
    else
      var r := rs[|rs| - 1];
      Senders(rs[..|rs| - 1]) + (if r.kind == Message && r.sender.Some? && r.sender.value != "" then [r.sender.value] else [])
  }

  /** `participants.reduce((a, b) => (senderCounts[a] >= senderCounts[b] ? a : b), acc)`:
      the incumbent is replaced only by a strictly greater count. */
  function Reduce(counts: map<string, nat>, ps: seq<string>, acc: string): (r: string)
    requires acc in counts && forall k :: 0 <= k < |ps| ==> ps[k] in counts
    ensures r in counts
    ensures r == acc || r in ps
    decreases |ps|
  {
    if ps == [] then acc
    else Reduce(counts, ps[1..], if counts[acc] >= counts[ps[0]] then acc else ps[0])
  }

  /** The owner: "You" when that sender occurs, otherwise the first of the
      participants with the highest count, and none when there are no
      participants. */
  function Owner(counts: map<string, nat>, participants: seq<string>): (o: Option<string>)
    requires forall k :: 0 <= k < |participants| ==> participants[k] in counts
    ensures o.Some? ==> o.value == "You" || o.value in participants
    ensures o.None? ==> participants == []
  {
    if "You" in counts && counts["You"] > 0 then Some("You")
    else if participants == [] then None
    else Some(Reduce(counts, participants, participants[0]))
  }

  /** Marks a record as the owner's: a message whose sender is the owner. */
  function Mark(r: Record, owner: Option<string>): Record
  {
    if r.kind == Message && r.sender == owner then r.(isOwner := true) else r
  }

  function MarkAll(rs: seq<Record>, owner: Option<string>): (ms: seq<Record>)
    ensures |ms| == |rs|
    ensures forall k :: 0 <= k < |rs| ==> ms[k] == Mark(rs[k], owner)
  {
    seq(|rs|, k requires 0 <= k < |rs| => Mark(rs[k], owner))
  }

  function Renumber(rs: seq<Record>): (ms: seq<Record>)
    ensures |ms| == |rs|
    ensures forall k :: 0 <= k < |rs| ==> ms[k] == rs[k].(id := k)
  {
    seq(|rs|, k requires 0 <= k < |rs| => rs[k].(id := k))
  }

  /** The participants other than the owner. */
  function Others(participants: seq<string>, owner: Option<string>): (os: seq<string>)
    ensures forall x :: x in os <==> x in participants && Some(x) != owner
    ensures |os| <= |participants|
  {
    if participants == [] then []
    else
      (if Some(participants[0]) != owner then [participants[0]] else [])
      + Others(participants[1..], owner)
  }

  /** `chatName`. */
  function ChatName(participants: seq<string>, owner: Option<string>): (name: string)
    ensures || name in participants
            || Some(name) == owner
            || name == "Chat"
            || (|participants| >= 2 && name == "Group (" + NumToString(Int(|participants|)) + " participants)")
  {
    var others := Others(participants, owner);
    if |others| == 1 then others[0]
    else if |others| > 1 then "Group (" + NumToString(Int(|participants|)) + " participants)"
    else if owner.Some? && owner.value != "" then owner.value
    else "Chat"
  }

  /** Everything `parseChat` does after the first pass. */
  function Assemble(records: seq<Record>): (c: Chat)
    ensures |c.messages| == |records|
    ensures forall k :: 0 <= k < |c.messages| ==> c.messages[k].id == k
    ensures Distinct(c.participants)
    ensures c.owner.Some? ==> c.owner.value == "You" || c.owner.value in c.participants
  {
    var senders := Senders(records);
    var participants := Dedup(senders);
    var owner := Owner(Tally(senders), participants);
    Chat(Renumber(MarkAll(records, owner)), participants, owner, ChatName(participants, owner))
  }

  /** The records `parseChat` produces from an export: those of its lines,
      numbered from 0. */
  function RecordsOf(rawText: string): seq<Record>
  {
    Records(ReadLines(Split(rawText, {'\n'})), 0)
  }

  /** The reference definition of `parseChat`. */
  function Parse(rawText: string): (c: Chat)
    ensures |c.messages| == StartCount(ReadLines(Split(rawText, {'\n'})))
  {
    RecordsCount(ReadLines(Split(rawText, {'\n'})), 0);
    Assemble(RecordsOf(rawText))
  }

  // ---------------------------------------------------------------- the pass as the source runs it

  function Opt(current: Option<Record>): seq<Record>
  {
    if current.Some? then [current.value] else []
  }

  /** The records of one more line, from those of the lines before it. */
  lemma RecordsNextLine(lines: seq<string>, i: nat)
    requires i < |lines|
    ensures Records(ReadLines(lines[..i + 1]), 0) == Extend(Records(ReadLines(lines[..i]), 0), ReadLine(lines[i]), 0)
  {
    assert lines[..i + 1][..i] == lines[..i];
    RecordsSnoc(ReadLines(lines[..i]), ReadLine(lines[i]), 0);
  }

  /** A start line, once the open record is pushed, opens a record numbered
      after those pushed. */
  lemma SegmentStart(lines: seq<string>, i: nat, done: seq<Record>, m: StartMatch)
    requires i < |lines| && MatchStart(lines[i]) == Some(m)
    requires done == Records(ReadLines(lines[..i]), 0)
    ensures done + [Open(|done|, m)] == Records(ReadLines(lines[..i + 1]), 0)
  {
    RecordsNextLine(lines, i);
    OpenId(|done|, m);
  }

  /** Another line extends the open record. */
  lemma SegmentContinue(lines: seq<string>, i: nat, done: seq<Record>, open: Record)
    requires i < |lines| && MatchStart(lines[i]).None?
    requires done + [open] == Records(ReadLines(lines[..i]), 0)
    ensures done + [Continue(open, lines[i])] == Records(ReadLines(lines[..i + 1]), 0)
  {
    RecordsNextLine(lines, i);
    assert (done + [open])[..|done|] == done;
  }

  /** Another line with no record open is dropped. */
  lemma SegmentDrop(lines: seq<string>, i: nat)
    requires i < |lines| && MatchStart(lines[i]).None?
    requires Records(ReadLines(lines[..i]), 0) == []
    ensures Records(ReadLines(lines[..i + 1]), 0) == []
  {
    RecordsNextLine(lines, i);
  }

  /** The first pass of `parseChat`: the `for (const line of lines)` loop
      and the push of the last open record. */
  method Segment(lines: seq<string>) returns (messages: seq<Record>)
    ensures messages == Records(ReadLines(lines), 0)
  {
    messages := [];
    var currentMessage: Option<Record> := None;
    for i := 0 to |lines|
      invariant messages + Opt(currentMessage) == Records(ReadLines(lines[..i]), 0)
      invariant currentMessage.None? ==> messages == []
    {
      var line := lines[i];
      match MatchStart(line)
      case Some(m) =>
        if currentMessage.Some? {
          messages := messages + [currentMessage.value];
        }
        SegmentStart(lines, i, messages, m);
        currentMessage := Some(Open(|messages|, m));
      case None =>
        if currentMessage.Some? {
          SegmentContinue(lines, i, messages, currentMessage.value);
          currentMessage := Some(Continue(currentMessage.value, line));
        } else {
          SegmentDrop(lines, i);
        }
    }
    if currentMessage.Some? {
      messages := messages + [currentMessage.value];
    }
    assert lines[..|lines|] == lines;
  }

  /** The participant count: a tally of the non-empty senders of message
      records, and its keys in insertion order. */
  method CountSenders(messages: seq<Record>) returns (senderCounts: map<string, nat>, participants: seq<string>)
    ensures senderCounts == Tally(Senders(messages))
    ensures participants == Dedup(Senders(messages))
  {
    senderCounts := map[];
    participants := [];
    for i := 0 to |messages|
      invariant senderCounts == Tally(Senders(messages[..i]))
      invariant participants == Dedup(Senders(messages[..i]))
    {
      var msg := messages[i];
      assert messages[..i + 1][..i] == messages[..i];
      ghost var before := Senders(messages[..i]);
      if msg.kind == Message && msg.sender.Some? && msg.sender.value != "" {
        var s := msg.sender.value;
        assert Senders(messages[..i + 1]) == before + [s];
        TallySnoc(before, s);
        DedupSnoc(before, s);
        if s !in senderCounts {
          participants := participants + [s];
        }
        senderCounts := senderCounts[s := (if s in senderCounts then senderCounts[s] else 0) + 1];
      } else {
        assert Senders(messages[..i + 1]) == before + [];
        assert before + [] == before;
      }
    }
    assert messages[..|messages|] == messages;
  }

  /** Marks the owner's messages. */
  method MarkOwner(records: seq<Record>, owner: Option<string>) returns (messages: seq<Record>)
    ensures messages == MarkAll(records, owner)
  {
    messages := records;
    for i := 0 to |messages|
      invariant |messages| == |records|
      invariant forall k :: 0 <= k < i ==> messages[k] == Mark(records[k], owner)
      invariant forall k :: i <= k < |messages| ==> messages[k] == records[k]
    {
      var msg := messages[i];
      if msg.kind == Message && msg.sender == owner {
        messages := messages[i := msg.(isOwner := true)];
      }
    }
  }

  /** Reassigns sequential ids. */
  method AssignIds(marked: seq<Record>) returns (messages: seq<Record>)
    ensures messages == Renumber(marked)
  {
    messages := marked;
    for i := 0 to |messages|
      invariant |messages| == |marked|
      invariant forall k :: 0 <= k < i ==> messages[k] == marked[k].(id := k)
      invariant forall k :: i <= k < |messages| ==> messages[k] == marked[k]
    {
      messages := messages[i := messages[i].(id := i)];
    }
  }

  /** `parseChat(rawText)`. */
  method ParseChat(rawText: string) returns (chat: Chat)
    ensures chat == Parse(rawText)
  {
    var lines := Split(rawText, {'\n'});
    var records := Segment(lines);
    var senderCounts, participants := CountSenders(records);
    var owner := Owner(senderCounts, participants);
    var marked := MarkOwner(records, owner);
    var messages := AssignIds(marked);
    chat := Chat(messages, participants, owner, ChatName(participants, owner));
  }

  // ---------------------------------------------------------------- properties of the result

  /** Line `k` of the input is read on its own. */
  lemma {:induction false} ReadLinesAt(lines: seq<string>, k: nat)
    requires k < |lines|
    ensures ReadLines(lines)[k] == ReadLine(lines[k])
    decreases |lines|
  {
    var init := lines[..|lines| - 1];
    if k < |lines| - 1 {
      ReadLinesAt(init, k);
    }
  }

  /** What every record holds when it is opened: not the owner's, and no
      sender exactly when it is a system notice. */
  predicate WellOpened(r: Record)
  {
    !r.isOwner && (r.kind == System <==> r.sender.None?)
  }

  predicate WellRead(lines: seq<Line>)
  {
    forall k :: 0 <= k < |lines| && lines[k].Start? ==> WellOpened(lines[k].r)
  }

  lemma {:induction false} ReadLinesWellRead(lines: seq<string>)
    ensures WellRead(ReadLines(lines))
    decreases |lines|
  {
    if lines != [] {
      var init := lines[..|lines| - 1];
      ReadLinesWellRead(init);
      match MatchStart(lines[|lines| - 1])
      case Some(m) => OpenShape(0, m);
      case None =>
    }
  }

  lemma {:induction false} RecordsWellOpened(lines: seq<Line>, base: nat)
    requires WellRead(lines)
    ensures forall k :: 0 <= k < |Records(lines, base)| ==> WellOpened(Records(lines, base)[k])
    decreases |lines|
  {
    if lines != [] {
      if lines[0].Other? {
        RecordsWellOpened(lines[1..], base);
      } else {
        RecordsWellOpened(lines[BlockEnd(lines)..], base + 1);
      }
    }
  }

  /** Some message record carries sender `x`. */
  ghost predicate HasSender(rs: seq<Record>, x: string)
  {
    exists k :: 0 <= k < |rs| && rs[k].kind == Message && rs[k].sender == Some(x)
  }

  lemma HasSenderLast(rs: seq<Record>, x: string)
    requires rs != []
    ensures HasSender(rs, x) <==>
              HasSender(rs[..|rs| - 1], x) || (rs[|rs| - 1].kind == Message && rs[|rs| - 1].sender == Some(x))
  {
    var init := rs[..|rs| - 1];
    if HasSender(init, x) {
      var k :| 0 <= k < |init| && init[k].kind == Message && init[k].sender == Some(x);
      assert rs[k] == init[k];
    }
    if HasSender(rs, x) {
      var k :| 0 <= k < |rs| && rs[k].kind == Message && rs[k].sender == Some(x);
      if k < |init| {
        assert init[k] == rs[k];
      }
    }
  }

  /** A sender is counted exactly when some message record carries it and it
      is not empty. */
  lemma {:induction false} SendersMembers(rs: seq<Record>, x: string)
    ensures x in Senders(rs) <==>
              x != "" && exists k :: 0 <= k < |rs| && rs[k].kind == Message && rs[k].sender == Some(x)
    decreases |rs|
  {
    if rs != [] {
      SendersMembers(rs[..|rs| - 1], x);
      HasSenderLast(rs, x);
    }
  }

  /** The reduction keeps the incumbent unless a later participant has a
      strictly greater count: its result has the greatest count, and it is
      the incumbent or a participant. */
  lemma {:induction false} ReduceGreatest(counts: map<string, nat>, ps: seq<string>, acc: string)
    requires acc in counts && forall k :: 0 <= k < |ps| ==> ps[k] in counts
    ensures var r := Reduce(counts, ps, acc);
      && (r == acc || r in ps)
      && counts[acc] <= counts[r]
      && forall k :: 0 <= k < |ps| ==> counts[ps[k]] <= counts[r]
    decreases |ps|
  {
    if ps != [] {
      var next := if counts[acc] >= counts[ps[0]] then acc else ps[0];
      ReduceGreatest(counts, ps[1..], next);
      var r := Reduce(counts, ps, acc);
      forall k | 0 <= k < |ps| ensures counts[ps[k]] <= counts[r] {
        if k > 0 {
          assert ps[k] == ps[1..][k - 1];
        }
      }
    }
  }

  /** When the reduction replaces the incumbent, it settles on the first
      participant with the greatest count: everyone before it has strictly
      fewer. */
  lemma {:induction false} ReduceFirst(counts: map<string, nat>, ps: seq<string>, acc: string)
    requires acc in counts && forall k :: 0 <= k < |ps| ==> ps[k] in counts
    ensures var r := Reduce(counts, ps, acc);
      r != acc ==>
        exists j :: 0 <= j < |ps| && r == ps[j] && counts[acc] < counts[r]
                    && forall i :: 0 <= i < j ==> counts[ps[i]] < counts[r]
    decreases |ps|
  {
    if ps != [] {
      var next := if counts[acc] >= counts[ps[0]] then acc else ps[0];
      ReduceFirst(counts, ps[1..], next);
      ReduceGreatest(counts, ps[1..], next);
      var r := Reduce(counts, ps, acc);
      if r != acc {
        if r == next {
          assert r == ps[0];
        } else {
          var j :| 0 <= j < |ps[1..]| && r == ps[1..][j] && counts[next] < counts[r]
                   && forall i :: 0 <= i < j ==> counts[ps[1..][i]] < counts[r];
          forall i | 0 <= i < j + 1 ensures counts[ps[i]] < counts[r] {
            if i > 0 {
              assert ps[i] == ps[1..][i - 1];
            }
          }
          assert r == ps[j + 1];
        }
      }
    }
  }

  /** `ps[j]` is the first participant with the greatest count. */
  predicate FirstMost(counts: map<string, nat>, ps: seq<string>, j: int)
    requires forall k :: 0 <= k < |ps| ==> ps[k] in counts
  {
    && 0 <= j < |ps|
    && (forall k :: 0 <= k < |ps| ==> counts[ps[k]] <= counts[ps[j]])
    && (forall i :: 0 <= i < j ==> counts[ps[i]] < counts[ps[j]])
  }

  /** The owner rule: "You" when it was counted; otherwise the first
      participant with the greatest count; none without participants. */
  lemma OwnerChoice(counts: map<string, nat>, ps: seq<string>)
    requires forall k :: 0 <= k < |ps| ==> ps[k] in counts
    ensures "You" in counts && counts["You"] > 0 ==> Owner(counts, ps) == Some("You")
    ensures !("You" in counts && counts["You"] > 0) && ps == [] ==> Owner(counts, ps) == None
    ensures !("You" in counts && counts["You"] > 0) && ps != [] ==>
              exists j :: FirstMost(counts, ps, j) && Owner(counts, ps) == Some(ps[j])
  {
    if !("You" in counts && counts["You"] > 0) && ps != [] {
      ReduceGreatest(counts, ps, ps[0]);
      ReduceFirst(counts, ps, ps[0]);
      var r := Reduce(counts, ps, ps[0]);
      if r == ps[0] {
        assert FirstMost(counts, ps, 0);
      } else {
        var j :| 0 <= j < |ps| && r == ps[j] && counts[ps[0]] < counts[r]
                 && forall i :: 0 <= i < j ==> counts[ps[i]] < counts[r];
        assert FirstMost(counts, ps, j);
      }
    }
  }

  /** Without an owner nobody is excluded; with an owner among distinct
      participants, exactly the owner is. */
  lemma {:induction false} OthersCount(ps: seq<string>, owner: Option<string>)
    requires Distinct(ps)
    ensures owner.None? ==> Others(ps, owner) == ps
    ensures owner.Some? && owner.value in ps ==> |Others(ps, owner)| == |ps| - 1
    ensures owner.Some? && owner.value !in ps ==> Others(ps, owner) == ps
    decreases |ps|
  {
    if ps != [] {
      var x, rest := ps[0], ps[1..];
      DistinctTail(ps);
      OthersCount(rest, owner);
      assert ps == [x] + rest;
      if Some(x) == owner {
        assert Others(ps, owner) == Others(rest, owner);
        assert owner.value !in rest;
      } else {
        assert Others(ps, owner) == [x] + Others(rest, owner);
        assert owner.Some? ==> (owner.value in ps <==> owner.value in rest);
      }
    }
  }

  /** The display name by the number of participants, when the owner is one
      of them: the owner alone gives the owner's name, two give the other
      one's name, three or more give a group label with the total count. */
  lemma ChatNameCases(ps: seq<string>, owner: Option<string>)
    requires Distinct(ps)
    requires forall x :: x in ps ==> x != ""
    requires owner.Some? <==> ps != []
    requires owner.Some? ==> owner.value in ps
    ensures ps == [] ==> ChatName(ps, owner) == "Chat"
    ensures |ps| == 1 ==> ChatName(ps, owner) == ps[0]
    ensures |ps| == 2 ==> ChatName(ps, owner) == if Some(ps[0]) == owner then ps[1] else ps[0]
    ensures |ps| >= 3 ==> ChatName(ps, owner) == "Group (" + NumToString(Int(|ps|)) + " participants)"
  {
    OthersCount(ps, owner);
    if |ps| == 1 {
      assert ps[0] in ps;
    }
    if |ps| == 2 {
      var os := Others(ps, owner);
      assert ps[0] in ps && ps[1] in ps;
      if Some(ps[0]) == owner {
        assert ps[1] in os;
      } else {
        assert ps[0] in os;
      }
    }
  }

  /** Parsing an empty export gives nothing, and the name "Chat". */
  lemma ParseEmpty()
    ensures Parse("") == Chat([], [], None, "Chat")
  {
    SplitAvoiding("", {'\n'});
    if IsStart("") {
      StartOpensWithDigit("");
    }
    assert ReadLines([""]) == [Other("")];
    assert Records([Other("")], 0) == [];
  }

  /** The records of an export are well opened. */
  lemma RecordsOfWellOpened(rawText: string)
    ensures forall k :: 0 <= k < |RecordsOf(rawText)| ==> WellOpened(RecordsOf(rawText)[k])
  {
    ReadLinesWellRead(Split(rawText, {'\n'}));
    RecordsWellOpened(ReadLines(Split(rawText, {'\n'})), 0);
  }

  /** After marking: a record is the owner's exactly when it is a message
      whose sender is the owner, and a system notice exactly when it has no
      sender; ids are positions. */
  lemma AssembleMarks(records: seq<Record>)
    requires forall k :: 0 <= k < |records| ==> WellOpened(records[k])
    ensures var chat := Assemble(records);
      && |chat.messages| == |records|
      && (forall k :: 0 <= k < |records| ==> chat.messages[k].id == k)
      && (forall k :: 0 <= k < |records| ==>
            (chat.messages[k].kind == System <==> chat.messages[k].sender.None?))
      && (forall k :: 0 <= k < |records| ==>
            (chat.messages[k].isOwner <==>
               chat.messages[k].kind == Message && chat.messages[k].sender == chat.owner))
  {
    var chat := Assemble(records);
    MarkedShape(records, chat.owner, chat.messages);
  }

  /** `AssembleMarks` for any owner: the records marked and renumbered. */
  lemma MarkedShape(records: seq<Record>, owner: Option<string>, ms: seq<Record>)
    requires forall k :: 0 <= k < |records| ==> WellOpened(records[k])
    requires ms == Renumber(MarkAll(records, owner))
    ensures |ms| == |records|
    ensures forall k :: 0 <= k < |ms| ==> ms[k].id == k
    ensures forall k :: 0 <= k < |ms| ==> (ms[k].kind == System <==> ms[k].sender.None?)
    ensures forall k :: 0 <= k < |ms| ==> (ms[k].isOwner <==> ms[k].kind == Message && ms[k].sender == owner)
  {
    forall k | 0 <= k < |ms|
      ensures ms[k] == Mark(records[k], owner).(id := k)
    {
    }
  }

  /** The shape of a parsed chat: one record per start line, numbered from
      0 in order; a record is a system notice exactly when it has no sender;
      a record is marked as the owner's exactly when it is a message whose
      sender is the owner. */
  lemma ParseRecords(rawText: string)
    ensures var chat := Parse(rawText);
      && |chat.messages| == StartCount(ReadLines(Split(rawText, {'\n'})))
      && (forall k :: 0 <= k < |chat.messages| ==> chat.messages[k].id == k)
      && (forall k :: 0 <= k < |chat.messages| ==>
            (chat.messages[k].kind == System <==> chat.messages[k].sender.None?))
      && (forall k :: 0 <= k < |chat.messages| ==>
            (chat.messages[k].isOwner <==>
               chat.messages[k].kind == Message && chat.messages[k].sender == chat.owner))
  {
    RecordsCount(ReadLines(Split(rawText, {'\n'})), 0);
    RecordsOfWellOpened(rawText);
    AssembleMarks(RecordsOf(rawText));
  }

  /** Renumbering changes nothing before marking: the records are already
      numbered densely from 0. */
  lemma RenumberRecords(lines: seq<Line>)
    ensures Renumber(Records(lines, 0)) == Records(lines, 0)
  {
    RecordsIds(lines, 0);
  }

  /** Marking and renumbering keep each record's kind and sender. */
  lemma MarkKeeps(records: seq<Record>, owner: Option<string>)
    ensures var ms := Renumber(MarkAll(records, owner));
      forall k :: 0 <= k < |records| ==> ms[k].kind == records[k].kind && ms[k].sender == records[k].sender
  {
  }

  /** The participants are the distinct non-empty senders of message
      records, in order of first appearance. */
  lemma AssembleParticipants(records: seq<Record>)
    ensures var chat := Assemble(records);
      && chat.participants == Dedup(Senders(records))
      && Distinct(chat.participants)
      && (forall x :: x in chat.participants <==>
            x != "" && exists k :: 0 <= k < |chat.messages| && chat.messages[k].kind == Message
                                   && chat.messages[k].sender == Some(x))
  {
    var chat := Assemble(records);
    var ms := chat.messages;
    var ps := chat.participants;
    assert ps == Dedup(Senders(records));
    MarkKeeps(records, chat.owner);
    assert |ms| == |records|;
    forall x ensures x in ps <==>
        x != "" && exists k :: 0 <= k < |ms| && ms[k].kind == Message && ms[k].sender == Some(x) {
      SendersMembers(records, x);
      if x in ps {
        var k :| 0 <= k < |records| && records[k].kind == Message && records[k].sender == Some(x);
        assert ms[k].kind == Message && ms[k].sender == Some(x);
      }
      if x != "" && exists k :: 0 <= k < |ms| && ms[k].kind == Message && ms[k].sender == Some(x) {
        var k :| 0 <= k < |ms| && ms[k].kind == Message && ms[k].sender == Some(x);
        assert records[k].kind == Message && records[k].sender == Some(x);
      }
    }
  }

  /** The owner is "You" when "You" sent a message; otherwise the first
      participant, in order of first appearance, with the greatest number of
      messages; there is none exactly when there are no participants, and
      it is always one of them. */
  lemma AssembleOwner(records: seq<Record>)
    ensures var chat := Assemble(records);
      var counts := Tally(Senders(records));
      && ("You" in counts ==> chat.owner == Some("You"))
      && ("You" !in counts && chat.participants != [] ==>
            exists j :: FirstMost(counts, chat.participants, j) && chat.owner == Some(chat.participants[j]))
      && (chat.owner.None? <==> chat.participants == [])
      && (chat.owner.Some? ==> chat.owner.value in chat.participants)
  {
    var senders := Senders(records);
    var counts := Tally(senders);
    var ps := Dedup(senders);
    OwnerChoice(counts, ps);
    if "You" in counts {
      assert "You" in ps;
    }
  }

  /** The display name of a parsed chat, by its number of participants: a
      single participant's own name, the other participant's name, or a
      group label with the total count; "Chat" without participants. */
  lemma AssembleName(records: seq<Record>)
    ensures var chat := Assemble(records);
      var ps := chat.participants;
      && (ps == [] ==> chat.chatName == "Chat")
      && (|ps| == 1 ==> chat.chatName == ps[0])
      && (|ps| == 2 ==> chat.chatName == if Some(ps[0]) == chat.owner then ps[1] else ps[0])
      && (|ps| >= 3 ==> chat.chatName == "Group (" + NumToString(Int(|ps|)) + " participants)")
  {
    AssembleParticipants(records);
    AssembleOwner(records);
    var chat := Assemble(records);
    ChatNameCases(chat.participants, chat.owner);
  }
}
