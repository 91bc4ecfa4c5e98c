/** The verifier's second round: polling suspects one at a time (verifier/sec_server.c). */
module Verifier {
  import opened Words

  /** Entries of the array of node ids in a request. */
  const MAX_IDS := 150

  /** Characters of an address that are compared. */
  const COMPARED := 10

  /** A row of the file with node ids and addresses; the address may still end in a newline. */
  datatype Entry = Entry(id: uint8, address: string)

  /** A line of the input file. */
  datatype Line =
    | RunNo(n: int)
    | FaultyNodes
    | Stars
    | Data(ids: seq<int>)

  datatype Msg =
    | Start(run: uint8)
    | Poll(id: uint8, to: Option<string>, run: uint8)
    | Stop(run: uint8)
    | Done(run: uint8)

  // ---- The address table ----

  /** What `strncmp` with COMPARED looks at. */
  function Compared(a: string): string {
    if |a| <= COMPARED then a else a[..COMPARED]
  }

  /** `get_id_from_addr`: the first entry that agrees, 0 if there is none. */
  function IdOf(table: seq<Entry>, a: string): uint8 {
    if table == [] then 0
    else if Compared(table[0].address) == Compared(a) then table[0].id
    else IdOf(table[1..], a)
  }

  /** `get_addr_from_id`: the last entry with the id. */
  function AddressOf(table: seq<Entry>, id: uint8): Option<string> {
    if table == [] then None
    else if table[|table| - 1].id == id then Some(table[|table| - 1].address)
    else AddressOf(table[..|table| - 1], id)
  }

  /** The part of a string before its first newline. */
  function BeforeNewline(a: string): (r: string)
    ensures |r| <= |a| && r == a[..|r|] && '\n' !in r
    ensures |r| < |a| ==> a[|r|] == '\n'
  {
    if a == "" || a[0] == '\n' then ""
    else [a[0]] + BeforeNewline(a[1..])
  }

  /** Where a poll of `id` goes; None when the table has no such id. */
  function Destination(table: seq<Entry>, id: uint8): Option<string> {
    match AddressOf(table, id)
    case Some(a) => Some(BeforeNewline(a))
    case None => None
  }

  /** The entry agrees with a text on the characters that are compared. */
  predicate Agrees(e: Entry, a: string) {
    Compared(e.address) == Compared(a)
  }

  /** Two texts agree if they are equal or both have the same first ten characters. */
  lemma AgreesExactly(e: Entry, a: string)
    ensures Agrees(e, a)
       <==> e.address == a || (|e.address| >= 10 && |a| >= 10 && e.address[..10] == a[..10])
  {
  }

  /** The first entry that agrees with a reply's text has this id. */
  predicate Recognised(table: seq<Entry>, id: uint8, a: string) {
    exists j :: 0 <= j < |table| && table[j].id == id && Agrees(table[j], a)
                && forall i :: 0 <= i < j ==> !Agrees(table[i], a)
  }

  /** The address is that of the last entry with the id. */
  lemma {:induction false} AddressOfIs(table: seq<Entry>, id: uint8)
    ensures match AddressOf(table, id)
            case Some(a) => exists i :: 0 <= i < |table| && table[i] == Entry(id, a)
                                        && forall j :: i < j < |table| ==> table[j].id != id
            case None => forall i :: 0 <= i < |table| ==> table[i].id != id
  {
    if table != [] && table[|table| - 1].id != id {
      var front := table[..|table| - 1];
      AddressOfIs(front, id);
      match AddressOf(front, id)
      case Some(a) =>
        var i :| 0 <= i < |front| && front[i] == Entry(id, a) && forall j :: i < j < |front| ==> front[j].id != id;
        assert table[i] == Entry(id, a);
      case None =>
    } else if table != [] {
      assert table[|table| - 1] == Entry(id, table[|table| - 1].address);
    }
  }

  lemma {:induction false} FirstAgreeing(table: seq<Entry>, a: string) returns (j: nat)
    ensures j <= |table| && forall i :: 0 <= i < j ==> !Agrees(table[i], a)
    ensures if j < |table| then Agrees(table[j], a) && IdOf(table, a) == table[j].id else IdOf(table, a) == 0
  {
    if table == [] || Agrees(table[0], a) {
      j := 0;
    } else {
      j := FirstAgreeing(table[1..], a);
      j := j + 1;
    }
  }

  lemma RecognisedExactly(table: seq<Entry>, id: uint8, a: string)
    requires id != 0
    ensures IdOf(table, a) == id <==> Recognised(table, id, a)
  {
    var j := FirstAgreeing(table, a);
  }

  /** A file's address and the text before its newline agree exactly if that text is long enough or is all. */
  lemma OwnTextAgrees(address: string)
    ensures var r := BeforeNewline(address);
            Compared(address) == Compared(r) <==> |r| >= 10 || r == address
  {
    var r := BeforeNewline(address);
    if |r| >= COMPARED {
      assert r[..COMPARED] == address[..COMPARED];
    }
  }

  ghost predicate DistinctIds(table: seq<Entry>) {
    forall i, j :: 0 <= i < j < |table| ==> table[i].id != table[j].id
  }

  /**
   With distinct ids, a reply is taken for node `k` exactly if its text agrees with the node's entry and
   with no earlier one. A reply in the very form that was polled agrees exactly if it has ten characters
   or the entry has no newline.
   */
  lemma ReplyIdentifiesNode(table: seq<Entry>, k: nat, a: string)
    requires DistinctIds(table) && k < |table| && table[k].id != 0
    ensures IdOf(table, a) == table[k].id
       <==> Agrees(table[k], a) && forall j :: 0 <= j < k ==> !Agrees(table[j], a)
    ensures var r := BeforeNewline(table[k].address);
            && Destination(table, table[k].id) == Some(r)
            && (Agrees(table[k], r) <==> |r| >= 10 || r == table[k].address)
  {
    var j := FirstAgreeing(table, a);
    AddressOfIs(table, table[k].id);
    OwnTextAgrees(table[k].address);
  }

  // ---- States and steps ----

  /**
   The verifier's globals, the unread lines of its file, and what it has sent. `stopRun` is the run
   number left in the packet that ends a list; `active` is false after `exit`.
   */
  datatype Session = Session(lines: seq<Line>, runNo: int, startSent: bool, count: nat, index: nat,
                             sentId: uint8, nodes: seq<uint8>, recv: nat, stopRun: uint8, active: bool,
                             out: seq<Msg>)

  /** The array of a request: the ids of the line, then zeroes. */
  function Padded(ids: seq<int>): (r: seq<uint8>)
    requires |ids| <= MAX_IDS
    ensures |r| == MAX_IDS
    ensures forall k :: 0 <= k < |ids| ==> r[k] == ToByte(ids[k])
    ensures forall k :: |ids| <= k < MAX_IDS ==> r[k] == 0
  {
    seq(MAX_IDS, k requires 0 <= k => if k < |ids| then ToByte(ids[k]) else 0)
  }

  predicate LinesFit(lines: seq<Line>) {
    forall i :: 0 <= i < |lines| ==> lines[i].Data? ==> |lines[i].ids| <= MAX_IDS
  }

  /** `send_req_single_node`. */
  function SendSingle(table: seq<Entry>, s: Session): Session
    requires s.index < |s.nodes|
  {
    var id := s.nodes[s.index];
    if id == 0 then s.(sentId := id)
    else s.(sentId := id, index := s.index + 1,
            out := s.out + [Poll(id, Destination(table, id), ToByte(s.runNo))])
  }

  /** `send_unicast_second_round_req`, for the ids of a line. */
  function SendList(table: seq<Entry>, s: Session, ids: seq<int>): Session
    requires |ids| <= MAX_IDS
  {
    var started := if s.startSent then s else s.(startSent := true, out := s.out + [Start(ToByte(s.runNo))]);
    SendSingle(table, started.(nodes := Padded(ids), index := 0))
  }

  /** `read_line_send_req`: reads up to and including the next data line; false at the end of the file. */
  function ReadLine(table: seq<Entry>, s: Session): (r: (bool, Session))
    requires LinesFit(s.lines)
    ensures LinesFit(r.1.lines)
    decreases |s.lines|
  {
    if s.lines == [] then (false, s)
    else
      var rest := s.(lines := s.lines[1..]);
      match s.lines[0]
      case RunNo(n) => ReadLine(table, rest.(runNo := n))
      case FaultyNodes => ReadLine(table, rest)
      case Stars => ReadLine(table, rest)
      case Data(ids) => (true, SendList(table, rest.(count := |ids|), ids))
  }

  // ---- What holds in the reply loop, whoever answers ----

  /**
   The list index stays within the entries of the list: it is at most one ahead of the replies, and
   what lies behind the list is 0.
   */
  predicate Safe(s: Session) {
    && LinesFit(s.lines)
    && |s.nodes| == MAX_IDS && s.count <= MAX_IDS
    && (forall k :: s.count <= k < MAX_IDS ==> s.nodes[k] == 0)
    && (s.active && s.count > 0 ==> s.recv < s.count && s.index <= s.recv + 1 && s.index <= s.count)
    && (s.active && s.count == 0 ==> s.index == 0)
  }

  /** A data line of the file with the run number in force. */
  datatype List = List(ids: seq<int>, run: uint8)

  /** The data lines, each with the nearest preceding run number. */
  function Lists(lines: seq<Line>, run: int): seq<List> {
    if lines == [] then []
    else
      match lines[0]
      case RunNo(n) => Lists(lines[1..], n)
      case FaultyNodes => Lists(lines[1..], run)
      case Stars => Lists(lines[1..], run)
      case Data(ids) => [List(ids, ToByte(run))] + Lists(lines[1..], run)
  }

  function DataCount(lines: seq<Line>): nat {
    if lines == [] then 0 else DataCount(lines[..|lines| - 1]) + (if lines[|lines| - 1].Data? then 1 else 0)
  }

  /** The last run number of some lines, or `run` if there is none. */
  function RunInForce(lines: seq<Line>, run: int): int {
    if lines == [] then run
    else if lines[|lines| - 1].RunNo? then lines[|lines| - 1].n
    else RunInForce(lines[..|lines| - 1], run)
  }

  /** One more line adds one more list, with the last run number before it, if it is a data line. */
  lemma {:induction false} ListsSnoc(lines: seq<Line>, last: Line, run: int)
    ensures Lists(lines + [last], run)
         == Lists(lines, run) + (if last.Data? then [List(last.ids, ToByte(RunInForce(lines, run)))] else [])
    decreases |lines|
  {
    hide ToByte;
    if lines == [] {
      assert lines + [last] == [last] && [last][1..] == [];
    } else {
      var rest := lines[1..];
      var next := if lines[0].RunNo? then lines[0].n else run;
      ListsSnoc(rest, last, next);
      RunAfterFirst(lines, run);
      assert (lines + [last])[1..] == rest + [last];
    }
  }

  lemma {:induction false} RunAfterFirst(lines: seq<Line>, run: int)
    requires lines != []
    ensures RunInForce(lines, run) == RunInForce(lines[1..], if lines[0].RunNo? then lines[0].n else run)
    decreases |lines|
  {
    var front := lines[..|lines| - 1];
    if front != [] && !lines[|lines| - 1].RunNo? {
      RunAfterFirst(front, run);
      assert lines[1..][..|lines| - 2] == front[1..];
    }
  }

  /** Each data line gives one list, in order, with its nodes and the nearest run number before it. */
  lemma {:induction false} ListAt(lines: seq<Line>, run: int, i: nat)
    requires i < |lines| && lines[i].Data?
    ensures |Lists(lines, run)| == DataCount(lines) > DataCount(lines[..i])
    ensures Lists(lines, run)[DataCount(lines[..i])]
         == List(lines[i].ids, ToByte(RunInForce(lines[..i], run)))
  {
    hide ToByte, RunInForce, Lists;
    var front, last := lines[..|lines| - 1], lines[|lines| - 1];
    assert lines == front + [last];
    ListsSnoc(front, last, run);
    if i < |front| {
      assert front[..i] == lines[..i];
      ListAt(front, run, i);
    } else {
      ListsCount(front, run);
    }
  }

  lemma {:induction false} ListsCount(lines: seq<Line>, run: int)
    ensures |Lists(lines, run)| == DataCount(lines)
  {
    hide ToByte, RunInForce, Lists;
    if lines == [] {
      NoLists(run);
    } else {
      var front, last := lines[..|lines| - 1], lines[|lines| - 1];
      ListsCount(front, run);
      assert lines == front + [last];
      ListsSnoc(front, last, run);
    }
  }

  lemma NoLists(run: int)
    ensures Lists([], run) == []
  {
  }

  /** The polls of some nodes in order. */
  function PollsOf(table: seq<Entry>, ids: seq<uint8>, run: uint8): (r: seq<Msg>)
    ensures |r| == |ids|
    ensures forall k :: 0 <= k < |ids| ==> r[k] == Poll(ids[k], Destination(table, ids[k]), run)
  {
    seq(|ids|, k requires 0 <= k < |ids| => Poll(ids[k], Destination(table, ids[k]), run))
  }

  /** A list that has just been started: its first node is polled, unless there is none. */
  predicate JustStarted(table: seq<Entry>, s: Session, list: List, before: seq<Msg>)
    requires |list.ids| <= MAX_IDS
  {
    && Safe(s) && s.recv == 0 && s.startSent
    && s.count == |list.ids| && s.nodes == Padded(list.ids) && ToByte(s.runNo) == list.run
    && s.sentId == s.nodes[0]
    && s.index == (if s.nodes[0] == 0 then 0 else 1)
    && s.out == before + PollsOf(table, s.nodes[..s.index], list.run)
  }

  lemma ListSent(table: seq<Entry>, s: Session, ids: seq<int>)
    requires |ids| == s.count <= MAX_IDS && LinesFit(s.lines) && s.recv == 0
    ensures var r := SendList(table, s, ids);
            && r.active == s.active && r.runNo == s.runNo && r.lines == s.lines && r.stopRun == s.stopRun
            && JustStarted(table, r, List(ids, ToByte(s.runNo)),
                           if s.startSent then s.out else s.out + [Start(ToByte(s.runNo))])
  {
    hide Destination, ToByte;
    var r := SendList(table, s, ids);
    assert r.nodes[..0] == [];
    assert r.nodes[..1] == [r.nodes[0]];
  }

  lemma FittingList(lines: seq<Line>, run: int)
    requires LinesFit(lines) && Lists(lines, run) != []
    ensures |Lists(lines, run)[0].ids| <= MAX_IDS
    decreases |lines|
  {
    hide ToByte;
    match lines[0]
    case RunNo(n) => FittingList(lines[1..], n);
    case FaultyNodes => FittingList(lines[1..], run);
    case Stars => FittingList(lines[1..], run);
    case Data(ids) =>
  }

  /** Reading on finds the next data line with its run number, or the end of the file. */
  lemma {:induction false} LineRead(table: seq<Entry>, s: Session)
    requires LinesFit(s.lines) && s.recv == 0
    ensures var (more, r) := ReadLine(table, s);
            var lists := Lists(s.lines, s.runNo);
            && r.active == s.active && r.stopRun == s.stopRun
            && (more <==> lists != [])
            && (more ==>
                  && |lists[0].ids| <= MAX_IDS
                  && Lists(r.lines, r.runNo) == lists[1..]
                  && JustStarted(table, r, lists[0],
                                 if s.startSent then s.out else s.out + [Start(lists[0].run)]))
            && (!more ==> r == s.(lines := r.lines, runNo := r.runNo))
    decreases |s.lines|
  {
    hide SendList, JustStarted, ToByte;
    if s.lines != [] {
      var rest := s.(lines := s.lines[1..]);
      match s.lines[0]
      case RunNo(n) => LineRead(table, rest.(runNo := n));
      case FaultyNodes => LineRead(table, rest);
      case Stars => LineRead(table, rest);
      case Data(ids) => ListSent(table, rest.(count := |ids|), ids);
    }
  }

  /** The reply loop up to the test whether the list is complete. */
  function ListDone(s: Session): Session {
    s.(out := s.out + [Stop(ToByte(s.runNo))], stopRun := ToByte(s.runNo), recv := 0)
  }

  /** A session without a file: the one node of its list has been polled, and no list is counted. */
  predicate Alone(s: Session) {
    && LinesFit(s.lines) && |s.nodes| == MAX_IDS
    && s.active && s.count == 0 && s.index == 1 && s.nodes[1] == 0
  }

  /** One round of the reply loop in `main`, for a reply from address `a`. */
  function Reply(table: seq<Entry>, s: Session, a: string): (r: Session)
    requires Safe(s) || Alone(s)
    ensures Safe(s) ==> Safe(r)
    ensures Alone(s) ==> Alone(r) && r.out == s.out
  {
    if !s.active then s
    else
      var got := s.(recv := s.recv + 1);
      if got.count == got.recv then
        LineRead(table, ListDone(got));
        var (more, next) := ReadLine(table, ListDone(got));
        if more then next else next.(out := next.out + [Done(next.stopRun)], active := false)
      else if got.sentId == IdOf(table, a) then SendSingle(table, got)
      else got
  }

  /** `main` up to the reply loop: without a data line the program ends before it sends anything. */
  function Begin(table: seq<Entry>, lines: seq<Line>): (r: Session)
    requires LinesFit(lines)
    ensures Safe(r)
  {
    var s := Initial(lines);
    LineRead(table, s);
    var (more, next) := ReadLine(table, s);
    if more then next else next.(active := false)
  }

  /** The globals at the start, for a file with some lines. */
  function Initial(lines: seq<Line>): Session {
    Session(lines, 0, false, 0, 0, 0, Padded([]), 0, 0, true, [])
  }

  /** The node that is polled when there is no file. */
  const DEFAULT_NODE := 6

  /** `main` up to the reply loop when the file cannot be opened. */
  function BeginWithoutFile(table: seq<Entry>): (r: Session)
    ensures Alone(r)
  {
    SendList(table, Initial([]), [DEFAULT_NODE])
  }

  /** The session after some replies. */
  function Run(table: seq<Entry>, s: Session, replies: seq<string>): (r: Session)
    requires Safe(s) || Alone(s)
    ensures Safe(s) ==> Safe(r)
    ensures Alone(s) ==> Alone(r) && r.out == s.out
  {
    if replies == [] then s
    else Reply(table, Run(table, s, replies[..|replies| - 1]), replies[|replies| - 1])
  }

  /** The program was still waiting before each of the replies. */
  predicate Live(table: seq<Entry>, s: Session, replies: seq<string>)
    requires Safe(s)
  {
    replies == [] || (Live(table, s, replies[..|replies| - 1])
                      && Run(table, s, replies[..|replies| - 1]).active)
  }

  /** The run numbers of the STOP messages. */
  function Stops(out: seq<Msg>): seq<uint8> {
    if out == [] then []
    else Stops(out[..|out| - 1]) + (if out[|out| - 1].Stop? then [out[|out| - 1].run] else [])
  }

  /** The polls since the last other message. */
  function LastPolls(out: seq<Msg>): seq<Msg> {
    if out == [] || !out[|out| - 1].Poll? then []
    else LastPolls(out[..|out| - 1]) + [out[|out| - 1]]
  }

  /** All polls of a session. */
  function Polls(out: seq<Msg>): seq<Msg> {
    if out == [] then []
    else Polls(out[..|out| - 1]) + (if out[|out| - 1].Poll? then [out[|out| - 1]] else [])
  }

  function RunsOf(lists: seq<List>): (r: seq<uint8>)
    ensures |r| == |lists| && forall i :: 0 <= i < |lists| ==> r[i] == lists[i].run
  {
    seq(|lists|, i requires 0 <= i < |lists| => lists[i].run)
  }

  /** The number of ids in some lists. */
  function Total(lists: seq<List>): nat {
    if lists == [] then 0 else Total(lists[..|lists| - 1]) + |lists[|lists| - 1].ids|
  }

  lemma StopsSnoc(out: seq<Msg>, m: Msg)
    ensures Stops(out + [m]) == Stops(out) + (if m.Stop? then [m.run] else [])
    ensures LastPolls(out + [m]) == if m.Poll? then LastPolls(out) + [m] else []
    ensures Polls(out + [m]) == if m.Poll? then Polls(out) + [m] else Polls(out)
  {
    assert (out + [m])[..|out|] == out;
  }

  lemma {:induction false} StopsPolls(out: seq<Msg>, polls: seq<Msg>)
    requires forall k :: 0 <= k < |polls| ==> polls[k].Poll?
    ensures Stops(out + polls) == Stops(out)
    ensures LastPolls(out + polls) == LastPolls(out) + polls
    ensures Polls(out + polls) == Polls(out) + polls
  {
    hide Stops, LastPolls, Polls;
    if polls == [] {
      assert out + polls == out;
    } else {
      var front, last := polls[..|polls| - 1], polls[|polls| - 1];
      StopsPolls(out, front);
      StopsSnoc(out + front, last);
      assert polls == front + [last];
      assert out + polls == (out + front) + [last];
    }
  }

  /** The list being polled is list `k`, its polls so far are a prefix of it, and `n` replies have come. */
  ghost predicate Polling(table: seq<Entry>, lists: seq<List>, s: Session, k: nat)
  {
    && k < |lists| && |lists[k].ids| <= MAX_IDS && s.startSent
    && s.count == |lists[k].ids| && s.nodes == Padded(lists[k].ids)
    && ToByte(s.runNo) == lists[k].run && Lists(s.lines, s.runNo) == lists[k + 1..]
    && s.index <= |s.nodes|
    && LastPolls(s.out) == PollsOf(table, s.nodes[..s.index], lists[k].run)
  }

  /** How the state accounts for `n` replies. */
  ghost predicate Tracks(table: seq<Entry>, lists: seq<List>, s: Session, n: nat) {
    var k := |Stops(s.out)|;
    && k <= |lists| && Stops(s.out) == RunsOf(lists[..k])
    && Total(lists[..k]) + s.recv == n
    && (s.active ==> Polling(table, lists, s, k))
    && (!s.active ==> k == |lists| && s.recv == 0)
  }

  lemma NewList(table: seq<Entry>, lists: seq<List>, s: Session, k: nat, before: seq<Msg>)
    requires k < |lists| && |lists[k].ids| <= MAX_IDS && JustStarted(table, s, lists[k], before)
    requires Lists(s.lines, s.runNo) == lists[k + 1..]
    requires LastPolls(before) == [] && Stops(before) == RunsOf(lists[..k])
    ensures Polling(table, lists, s, k) && Stops(s.out) == RunsOf(lists[..k])
  {
    hide Padded, ToByte, Destination, LastPolls, Stops, Lists;
    StopsPolls(before, PollsOf(table, s.nodes[..s.index], lists[k].run));
    assert [] + PollsOf(table, s.nodes[..s.index], lists[k].run) == PollsOf(table, s.nodes[..s.index], lists[k].run);
  }

  lemma BeginTracks(table: seq<Entry>, lines: seq<Line>)
    requires LinesFit(lines)
    ensures Tracks(table, Lists(lines, 0), Begin(table, lines), 0)
  {
    hide JustStarted, Polling, ReadLine, Stops, LastPolls, Polls, Total, Lists, Padded;
    var lists := Lists(lines, 0);
    var s := Initial(lines);
    LineRead(table, s);
    NothingOut(lists);
    if lists != [] {
      StopsSnoc([], Start(lists[0].run));
      assert [] + [Start(lists[0].run)] == [Start(lists[0].run)];
      NewList(table, lists, ReadLine(table, s).1, 0, [Start(lists[0].run)]);
      JustStartedWaits(table, ReadLine(table, s).1, lists[0], [Start(lists[0].run)]);
    }
  }

  lemma NothingOut(lists: seq<List>)
    ensures Stops([]) == [] == RunsOf(lists[..0]) && LastPolls([]) == [] == Polls([]) && Total(lists[..0]) == 0
  {
  }

  lemma JustStartedWaits(table: seq<Entry>, s: Session, list: List, before: seq<Msg>)
    requires |list.ids| <= MAX_IDS && JustStarted(table, s, list, before)
    ensures s.recv == 0
  {
  }

  lemma TotalSnoc(lists: seq<List>, k: nat)
    requires k < |lists|
    ensures Total(lists[..k + 1]) == Total(lists[..k]) + |lists[k].ids|
    ensures RunsOf(lists[..k + 1]) == RunsOf(lists[..k]) + [lists[k].run]
  {
    assert lists[..k + 1][..k] == lists[..k];
  }

  /** The last reply of a list: a STOP, then the next list or the end. */
  lemma EndTracks(table: seq<Entry>, lists: seq<List>, s: Session, a: string, n: nat)
    requires Safe(s) && s.active && Tracks(table, lists, s, n) && s.recv + 1 == s.count
    ensures Tracks(table, lists, Reply(table, s, a), n + 1)
  {
    hide Safe, JustStarted, ReadLine, Padded, ToByte, LastPolls, Stops, Total, Lists, IdOf, PollsOf;
    var k := |Stops(s.out)|;
    var stopped := ListDone(s.(recv := s.recv + 1));
    SafeFits(s);
    LineRead(table, stopped);
    StopsSnoc(s.out, Stop(lists[k].run));
    TotalSnoc(lists, k);
    var (more, next) := ReadLine(table, stopped);
    if more {
      assert lists[k + 1..][0] == lists[k + 1] && lists[k + 1..][1..] == lists[k + 2..];
      NewList(table, lists, next, k + 1, stopped.out);
      JustStartedWaits(table, next, lists[k + 1], stopped.out);
    } else {
      StopsSnoc(stopped.out, Done(next.stopRun));
    }
  }

  lemma SafeFits(s: Session)
    requires Safe(s)
    ensures LinesFit(s.lines) && |s.nodes| == MAX_IDS
  {
  }

  /** Any earlier reply polls the next node of the list or nothing. */
  lemma MiddleTracks(table: seq<Entry>, lists: seq<List>, s: Session, a: string, n: nat)
    requires Safe(s) && s.active && Tracks(table, lists, s, n) && s.recv + 1 != s.count
    ensures Tracks(table, lists, Reply(table, s, a), n + 1)
  {
    hide ReadLine, IdOf, Destination, LinesFit, Tracks, ToByte;
    var r := Reply(table, s, a);
    if s.sentId == IdOf(table, a) && s.nodes[s.index] != 0 {
      PolledTracks(table, lists, s, n);
    } else {
      CountedTracks(table, lists, s, n, r.sentId);
    }
  }

  /** A reply that is only counted; the id polled last may be forgotten. */
  lemma CountedTracks(table: seq<Entry>, lists: seq<List>, s: Session, n: nat, id: uint8)
    requires s.active && Tracks(table, lists, s, n)
    ensures Tracks(table, lists, s.(recv := s.recv + 1, sentId := id), n + 1)
  {
    hide Padded, ToByte, LastPolls, Stops, Polls, Total, Lists, PollsOf;
  }

  /** A reply after which the next node is polled. */
  lemma PolledTracks(table: seq<Entry>, lists: seq<List>, s: Session, n: nat)
    requires s.active && Tracks(table, lists, s, n) && s.index < |s.nodes|
    ensures var id := s.nodes[s.index];
            Tracks(table, lists, s.(recv := s.recv + 1, sentId := id, index := s.index + 1,
                                    out := s.out + [Poll(id, Destination(table, id), ToByte(s.runNo))]), n + 1)
  {
    hide Padded, ToByte, LastPolls, Stops, Polls, Total, Lists, Destination, PollsOf;
    var id := s.nodes[s.index];
    var run := lists[|Stops(s.out)|].run;
    StopsSnoc(s.out, Poll(id, Destination(table, id), run));
    NextPoll(table, s.nodes, s.index, run);
  }

  lemma NextPoll(table: seq<Entry>, nodes: seq<uint8>, i: nat, run: uint8)
    requires i < |nodes|
    ensures PollsOf(table, nodes[..i + 1], run)
         == PollsOf(table, nodes[..i], run) + [Poll(nodes[i], Destination(table, nodes[i]), run)]
  {
    hide Destination;
  }

  /**
   Safety for every stream of replies, duplicates and strangers included. With `k` STOPs sent, exactly
   as many replies as the first `k` lists have ids came before the last STOP, each STOP carries its
   list's run number, the polls since then are a prefix of list `k` in order, and the session is over
   when all lists have had their STOP.
   */
  lemma {:induction false} RepliesAreCounted(table: seq<Entry>, lines: seq<Line>, replies: seq<string>)
    requires LinesFit(lines) && Live(table, Begin(table, lines), replies)
    ensures var s := Run(table, Begin(table, lines), replies);
            Safe(s) && Tracks(table, Lists(lines, 0), s, |replies|)
  {
    hide Safe, Tracks, Reply, Begin;
    if replies == [] {
      BeginTracks(table, lines);
    } else {
      var s := Run(table, Begin(table, lines), replies[..|replies| - 1]);
      RepliesAreCounted(table, lines, replies[..|replies| - 1]);
      if s.recv + 1 == s.count {
        EndTracks(table, Lists(lines, 0), s, replies[|replies| - 1], |replies| - 1);
      } else {
        MiddleTracks(table, Lists(lines, 0), s, replies[|replies| - 1], |replies| - 1);
      }
    }
  }

  // ---- The whole session with a faithful network ----

  /** What one list sends: its nodes in order, then a STOP. */
  function ListTrace(table: seq<Entry>, list: List): seq<Msg>
    requires |list.ids| <= MAX_IDS
  {
    PollsOf(table, Padded(list.ids)[..|list.ids|], list.run) + [Stop(list.run)]
  }

  predicate ListsFit(lists: seq<List>) {
    forall i :: 0 <= i < |lists| ==> |lists[i].ids| <= MAX_IDS
  }

  function ListsTrace(table: seq<Entry>, lists: seq<List>): seq<Msg>
    requires ListsFit(lists)
  {
    if lists == [] then []
    else ListsTrace(table, lists[..|lists| - 1]) + ListTrace(table, lists[|lists| - 1])
  }

  /** The session: START, then each data line's nodes in order and one STOP, then DONE. */
  function SessionTrace(table: seq<Entry>, lists: seq<List>): seq<Msg>
    requires ListsFit(lists) && lists != []
  {
    [Start(lists[0].run)] + ListsTrace(table, lists) + [Done(lists[|lists| - 1].run)]
  }

  lemma {:induction false} ListsOfFittingLines(lines: seq<Line>, run: int)
    requires LinesFit(lines)
    ensures ListsFit(Lists(lines, run))
    decreases |lines|
  {
    hide ToByte;
    if lines != [] {
      match lines[0]
      case RunNo(n) => ListsOfFittingLines(lines[1..], n);
      case FaultyNodes => ListsOfFittingLines(lines[1..], run);
      case Stars => ListsOfFittingLines(lines[1..], run);
      case Data(ids) => ListsOfFittingLines(lines[1..], run);
    }
  }

  /**
   The text of the sender of a reply, given the text the poll was sent to: the address goes through the
   network as a number, and the two conversions need not give the same text.
   */
  type Echo = string -> string

  /**
   The first `r` nodes of a list can be polled and passed: each has a nonzero id and an address, and its
   reply is recognised unless it is the last, whose reply only has to be counted.
   */
  predicate Passable(table: seq<Entry>, echo: Echo, list: List, r: nat)
    requires r <= |list.ids|
  {
    forall j :: 0 <= j < r ==>
      var id := ToByte(list.ids[j]);
      && id != 0 && Destination(table, id).Some?
      && (j + 1 < |list.ids| ==> Recognised(table, id, echo(Destination(table, id).value)))
  }

  predicate GoodList(table: seq<Entry>, echo: Echo, list: List) {
    list.ids != [] && Passable(table, echo, list, |list.ids|)
  }

  predicate Good(table: seq<Entry>, echo: Echo, lists: seq<List>) {
    forall i :: 0 <= i < |lists| ==> GoodList(table, echo, lists[i])
  }

  /** Each reply answers the oldest poll without one, and comes from where that poll went. */
  predicate Answers(table: seq<Entry>, echo: Echo, s: Session, replies: seq<string>)
    requires Safe(s)
    ensures Answers(table, echo, s, replies) ==> Live(table, s, replies)
  {
    replies == []
    || (var front := replies[..|replies| - 1];
        var r := Run(table, s, front);
        && Answers(table, echo, s, front)
        && r.active && Answerable(r, |front|)
        && replies[|replies| - 1] == echo(Polls(r.out)[|front|].to.value))
  }

  /** Some poll has gone to an address and has not been answered, after `n` replies. */
  predicate Answerable(s: Session, n: nat) {
    n < |Polls(s.out)| && Polls(s.out)[n].Poll? && Polls(s.out)[n].to.Some?
  }

  /** The program waits for the reply to its last poll, and everything before went well. */
  ghost predicate Waiting(table: seq<Entry>, echo: Echo, lists: seq<List>, s: Session, n: nat)
    requires ListsFit(lists) && lists != []
  {
    var k := |Stops(s.out)|;
    && k < |lists| && s.recv < |lists[k].ids|
    && s.nodes == Padded(lists[k].ids)
    && s.index == s.recv + 1 && s.sentId == s.nodes[s.recv] && s.sentId != 0
    && s.out == [Start(lists[0].run)] + ListsTrace(table, lists[..k])
                + PollsOf(table, s.nodes[..s.recv + 1], lists[k].run)
    && |Polls(s.out)| == n + 1 && Polls(s.out)[n] == Poll(s.sentId, Destination(table, s.sentId), lists[k].run)
    && Good(table, echo, lists[..k]) && Passable(table, echo, lists[k], s.recv)
  }

  /** After `n` replies to polls. */
  ghost predicate InStep(table: seq<Entry>, echo: Echo, lists: seq<List>, s: Session, n: nat)
    requires ListsFit(lists) && lists != []
  {
    if !s.active then s.out == SessionTrace(table, lists) && Good(table, echo, lists)
    else Waiting(table, echo, lists, s, n) || (|Polls(s.out)| == n && !Good(table, echo, lists))
  }

  lemma GoodSnoc(table: seq<Entry>, echo: Echo, lists: seq<List>, k: nat)
    requires k < |lists| && Good(table, echo, lists[..k]) && GoodList(table, echo, lists[k])
    ensures Good(table, echo, lists[..k + 1])
  {
    hide GoodList;
    assert forall i :: 0 <= i < k ==> lists[..k + 1][i] == lists[..k][i];
  }

  lemma NotGood(table: seq<Entry>, echo: Echo, lists: seq<List>, k: nat)
    requires k < |lists| && !GoodList(table, echo, lists[k])
    ensures !Good(table, echo, lists)
  {
  }

  lemma StartedInStep(table: seq<Entry>, echo: Echo, lists: seq<List>, s: Session, k: nat, before: seq<Msg>,
                      n: nat)
    requires ListsFit(lists) && k < |lists| && s.active && JustStarted(table, s, lists[k], before)
    requires |Stops(before)| == k && |Polls(before)| == n
    requires before == [Start(lists[0].run)] + ListsTrace(table, lists[..k])
    requires Good(table, echo, lists[..k])
    ensures InStep(table, echo, lists, s, n)
  {
    hide Destination, ToByte, Stops, Polls, ListsTrace, Recognised, Good, LinesFit;
    StopsPolls(before, PollsOf(table, s.nodes[..s.index], lists[k].run));
    if s.nodes[0] == 0 {
      assert before + [] == before;
      NotGood(table, echo, lists, k);
    }
  }

  lemma BeginInStep(table: seq<Entry>, echo: Echo, lines: seq<Line>)
    requires LinesFit(lines) && Lists(lines, 0) != []
    ensures ListsFit(Lists(lines, 0)) && InStep(table, echo, Lists(lines, 0), Begin(table, lines), 0)
  {
    hide JustStarted, ReadLine, Lists, InStep;
    ListsOfFittingLines(lines, 0);
    var lists := Lists(lines, 0);
    var s := Initial(lines);
    LineRead(table, s);
    var r := ReadLine(table, s).1;
    var before := [Start(lists[0].run)];
    assert lists[..0] == [];
    assert [] + before == before == before + ListsTrace(table, []);
    StopsSnoc([], Start(lists[0].run));
    assert Stops([]) == [] && Polls([]) == [];
    StartedInStep(table, echo, lists, r, 0, before, 0);
  }

  lemma LastPassable(table: seq<Entry>, echo: Echo, list: List, r: nat)
    requires r < |list.ids| && Passable(table, echo, list, r)
    requires ToByte(list.ids[r]) != 0 && Destination(table, ToByte(list.ids[r])).Some?
    requires r + 1 < |list.ids| ==>
               Recognised(table, ToByte(list.ids[r]), echo(Destination(table, ToByte(list.ids[r])).value))
    ensures Passable(table, echo, list, r + 1)
  {
    hide Destination, ToByte, Recognised;
  }

  /** The last reply of a list. */
  lemma EndInStep(table: seq<Entry>, echo: Echo, lists: seq<List>, s: Session, a: string, n: nat)
    requires ListsFit(lists) && lists != []
    requires Safe(s) && s.active && Tracks(table, lists, s, n) && s.recv + 1 == s.count
    requires Waiting(table, echo, lists, s, n) && Destination(table, s.sentId).Some?
    ensures InStep(table, echo, lists, Reply(table, s, a), n + 1)
  {
    hide Safe, JustStarted, ReadLine, ToByte, LastPolls, Stops, Polls, Total, Lists, IdOf, PollsOf;
    hide Destination, Passable, Good, Recognised, InStep, ListsTrace, Padded;
    var k := |Stops(s.out)|;
    var stopped := ListDone(s.(recv := s.recv + 1));
    SafeFits(s);
    LineRead(table, stopped);
    StopsSnoc(s.out, Stop(lists[k].run));
    LastPassable(table, echo, lists[k], s.recv);
    GoodSnoc(table, echo, lists, k);
    TraceSnoc(table, lists, k);
    assert stopped.out == [Start(lists[0].run)] + ListsTrace(table, lists[..k + 1]);
    var (more, next) := ReadLine(table, stopped);
    if more {
      assert lists[k + 1..][0] == lists[k + 1];
      StartedInStep(table, echo, lists, next, k + 1, stopped.out, n + 1);
    } else {
      assert k + 1 == |lists|;
      assert lists[..k + 1] == lists;
      Ended(table, echo, lists, Reply(table, s, a), n + 1);
    }
  }

  lemma TraceSnoc(table: seq<Entry>, lists: seq<List>, k: nat)
    requires ListsFit(lists) && k < |lists|
    ensures ListsTrace(table, lists[..k + 1]) == ListsTrace(table, lists[..k]) + ListTrace(table, lists[k])
  {
    assert lists[..k + 1][..k] == lists[..k];
  }

  lemma Ended(table: seq<Entry>, echo: Echo, lists: seq<List>, s: Session, n: nat)
    requires ListsFit(lists) && lists != []
    requires !s.active && s.out == SessionTrace(table, lists) && Good(table, echo, lists)
    ensures InStep(table, echo, lists, s, n)
  {
  }

  /** Any earlier reply polls the next node, or nothing for good. */
  lemma MiddleInStep(table: seq<Entry>, echo: Echo, lists: seq<List>, s: Session, n: nat)
    requires ListsFit(lists) && lists != []
    requires Safe(s) && s.active && Tracks(table, lists, s, n) && s.recv + 1 != s.count
    requires Waiting(table, echo, lists, s, n) && Destination(table, s.sentId).Some?
    ensures InStep(table, echo, lists, Reply(table, s, echo(Destination(table, s.sentId).value)), n + 1)
  {
    hide ReadLine, LastPolls, Stops, Polls, Total, Lists, IdOf, Destination, Good, ListsTrace, Recognised;
    hide Passable, PollsOf, ToByte;
    var k := |Stops(s.out)|;
    var a := echo(Destination(table, s.sentId).value);
    RecognisedExactly(table, s.sentId, a);
    if !Recognised(table, s.sentId, a) || s.nodes[s.index] == 0 {
      NotPassable(table, echo, lists[k], s.recv);
      NotGood(table, echo, lists, k);
    } else {
      LastPassable(table, echo, lists[k], s.recv);
      NextPolled(table, echo, lists, s, n, Reply(table, s, a));
    }
  }

  lemma NotPassable(table: seq<Entry>, echo: Echo, list: List, r: nat)
    requires r + 1 < |list.ids| && Destination(table, ToByte(list.ids[r])).Some?
    requires || !Recognised(table, ToByte(list.ids[r]), echo(Destination(table, ToByte(list.ids[r])).value))
             || ToByte(list.ids[r + 1]) == 0
    ensures !GoodList(table, echo, list)
  {
    hide Destination, ToByte, Recognised;
  }

  lemma NextPolled(table: seq<Entry>, echo: Echo, lists: seq<List>, s: Session, n: nat, r: Session)
    requires ListsFit(lists) && lists != [] && s.active && |s.nodes| == MAX_IDS
    requires Waiting(table, echo, lists, s, n)
    requires var k := |Stops(s.out)|;
             && s.recv + 1 < |lists[k].ids| && Passable(table, echo, lists[k], s.recv + 1)
             && s.nodes[s.index] != 0 && ToByte(s.runNo) == lists[k].run
    requires r == SendSingle(table, s.(recv := s.recv + 1))
    ensures InStep(table, echo, lists, r, n + 1)
  {
    hide LastPolls, Stops, Polls, Destination, Good, ListsTrace, Passable, ToByte, PollsOf, Padded;
    var k := |Stops(s.out)|;
    var id, run := s.nodes[s.index], lists[k].run;
    var poll := Poll(id, Destination(table, id), run);
    StopsSnoc(s.out, poll);
    NextPoll(table, s.nodes, s.index, run);
  }

  /** After any number of replies to polls. */
  lemma {:induction false} AnswersInStep(table: seq<Entry>, echo: Echo, lines: seq<Line>, replies: seq<string>)
    requires LinesFit(lines) && Lists(lines, 0) != []
    requires Answers(table, echo, Begin(table, lines), replies)
    ensures ListsFit(Lists(lines, 0))
    ensures InStep(table, echo, Lists(lines, 0), Run(table, Begin(table, lines), replies), |replies|)
  {
    hide Safe, Tracks, Reply, Begin, Good, Passable, Lists, Destination, Polls, Padded;
    BeginInStep(table, echo, lines);
    if replies != [] {
      var lists, front := Lists(lines, 0), replies[..|replies| - 1];
      var s := Run(table, Begin(table, lines), front);
      AnswersInStep(table, echo, lines, front);
      RepliesAreCounted(table, lines, front);
      if s.recv + 1 == s.count {
        EndInStep(table, echo, lists, s, replies[|replies| - 1], |front|);
      } else {
        MiddleInStep(table, echo, lists, s, |front|);
      }
    }
  }

  /**
   The whole session, when each poll is answered once by the node it goes to. The session comes to its
   end exactly when every data line names a node, every node named has a nonzero id and an address, and
   the reply of every node but the last of its line is recognised; and then what was sent is START, for
   each data line its nodes in order and one STOP with the nearest preceding run number, and DONE.
   */
  lemma FaithfulSession(table: seq<Entry>, echo: Echo, lines: seq<Line>, replies: seq<string>)
    requires LinesFit(lines) && Lists(lines, 0) != []
    requires Answers(table, echo, Begin(table, lines), replies)
    ensures ListsFit(Lists(lines, 0))
    ensures var s, lists := Run(table, Begin(table, lines), replies), Lists(lines, 0);
            && (!s.active ==> s.out == SessionTrace(table, lists) && |replies| == Total(lists))
            && (!Answerable(s, |replies|) ==> (!s.active <==> Good(table, echo, lists)))
            && (Good(table, echo, lists) ==> (!s.active <==> |replies| >= Total(lists)))
  {
    hide Lists, Destination, Begin, Answers, Run, SessionTrace, ToByte, Total, Safe, Polls, Recognised, Stops;
    hide PollsOf, ListsTrace;
    var lists := Lists(lines, 0);
    var s := Run(table, Begin(table, lines), replies);
    AnswersInStep(table, echo, lines, replies);
    AnswersLive(table, echo, lines, replies);
    RepliesAreCounted(table, lines, replies);
    var k := |Stops(s.out)|;
    if s.active {
      TotalSnoc(lists, k);
      TotalMonotone(lists, k + 1);
      if Waiting(table, echo, lists, s, |replies|) && Good(table, echo, lists) {
        assert GoodList(table, echo, lists[k]);
      }
    } else {
      assert lists[..k] == lists;
    }
  }

  lemma AnswersLive(table: seq<Entry>, echo: Echo, lines: seq<Line>, replies: seq<string>)
    requires LinesFit(lines) && Answers(table, echo, Begin(table, lines), replies)
    ensures Live(table, Begin(table, lines), replies)
  {
  }

  lemma {:induction false} NewlineCut(a: string)
    requires '\n' !in a
    ensures BeforeNewline(a + "\n") == a
  {
    if a != "" {
      NewlineCut(a[1..]);
      assert (a + "\n")[1..] == a[1..] + "\n";
    }
  }

  /**
   The failing family at its smallest: the addresses of the table end in a newline, and the one polled
   first is short. Its reply, in the very form it was polled, is not recognised; the session has its
   answer and stops there, with the second node never polled.
   */
  lemma ShortAddressStalls(id: uint8, next: uint8, a: string, b: string)
    requires id != 0 && next != 0 && id != next && '\n' !in a + b && |a| < COMPARED && |b| < COMPARED
    ensures var table := [Entry(id, a + "\n"), Entry(next, b + "\n")];
            var lines := [Data([id as int, next as int])];
            && LinesFit(lines)
            && var r := Run(table, Begin(table, lines), [a]);
            && Answers(table, x => x, Begin(table, lines), [a])
            && r.active && !Answerable(r, 1)
            && r.out == [Start(0), Poll(id, Some(a), 0)]
  {
    hide Begin, Compared, IdOf, Reply, Destination;
    var table := [Entry(id, a + "\n"), Entry(next, b + "\n")];
    var ids := [id as int, next as int];
    var s := Begin(table, [Data(ids)]);
    OnlyRow(id, a + "\n", next, b + "\n");
    NewlineCut(a);
    PolledAt(table, id, a);
    NotOwnText(table, a, b);
    OneLine(table, ids);
    Unanswered(table, s, a);
    OnePoll(Poll(id, Some(a), 0));
    assert [a][..0] == [];
    assert Run(table, s, []) == s;
  }

  lemma PolledAt(table: seq<Entry>, id: uint8, a: string)
    requires AddressOf(table, id) == Some(a + "\n") && BeforeNewline(a + "\n") == a
    ensures Destination(table, id) == Some(a)
  {
  }

  /** A reply in the middle of a list that is not recognised is only counted. */
  lemma Unanswered(table: seq<Entry>, s: Session, a: string)
    requires Safe(s) && s.active && s.recv + 1 != s.count && IdOf(table, a) != s.sentId
    ensures Reply(table, s, a) == s.(recv := s.recv + 1)
  {
  }

  lemma OnePoll(m: Msg)
    requires m.Poll?
    ensures Polls([Start(0), m]) == [m]
  {
    StopsSnoc([], Start(0));
    StopsSnoc([Start(0)], m);
    assert [] + [Start(0)] == [Start(0)] && [Start(0)] + [m] == [Start(0), m];
    assert Polls([]) == [];
  }

  /** A file with one line only. */
  lemma OneLine(table: seq<Entry>, ids: seq<int>)
    requires 0 < |ids| <= MAX_IDS && ToByte(ids[0]) != 0
    ensures var s, id := Begin(table, [Data(ids)]), ToByte(ids[0]);
            && s.active && s.count == |ids| && s.recv == 0 && s.sentId == id
            && s.out == [Start(0), Poll(id, Destination(table, id), 0)]
  {
    hide Destination;
    var start := Initial([Data(ids)]);
    assert start.lines[1..] == [];
    assert ReadLine(table, start) == (true, SendList(table, start.(lines := [], count := |ids|), ids));
  }

  lemma OnlyRow(id: uint8, a: string, next: uint8, b: string)
    requires id != next
    ensures AddressOf([Entry(id, a), Entry(next, b)], id) == Some(a)
  {
    var table := [Entry(id, a), Entry(next, b)];
    assert table[..1] == [Entry(id, a)];
  }

  lemma NotOwnText(table: seq<Entry>, a: string, b: string)
    requires |table| == 2 && table[0].address == a + "\n" && table[1].address == b + "\n"
    requires '\n' !in a && |a| < COMPARED && |b| < COMPARED
    ensures IdOf(table, a) == 0
  {
    var j := FirstAgreeing(table, a);
    assert (a + "\n")[|a|] == '\n' && (b + "\n")[|b|] == '\n';
  }

  lemma {:induction false} TotalMonotone(lists: seq<List>, k: nat)
    requires k <= |lists|
    ensures Total(lists[..k]) <= Total(lists)
    decreases |lists|
  {
    if k == |lists| {
      assert lists[..k] == lists;
    } else {
      var front := lists[..|lists| - 1];
      TotalMonotone(front, k);
      assert front[..k] == lists[..k];
    }
  }

  /** Without a file the program polls its one node and then waits for ever, whoever answers. */
  lemma SessionWithoutFile(table: seq<Entry>, replies: seq<string>)
    ensures var s := Run(table, BeginWithoutFile(table), replies);
            s.active && s.out == [Start(0), Poll(6, Destination(table, 6), 0)]
  {
    hide Destination;
  }

  // ---- The program ----

  class Program {
    const table: seq<Entry>
    var lines: seq<Line>
    var runNo: int
    var startSent: bool
    var secClientCount: nat
    var nodeIndex: nat
    var sentId: uint8
    const nodeAddr: array<uint8>
    var recvCount: nat
    var stopRun: uint8
    var running: bool
    var out: seq<Msg>

    ghost predicate Valid()
      reads this, nodeAddr
    {
      nodeAddr.Length == MAX_IDS && LinesFit(lines)
    }

    ghost function Abs(): Session
      reads this, nodeAddr
    {
      Session(lines, runNo, startSent, secClientCount, nodeIndex, sentId, nodeAddr[..], recvCount, stopRun,
              running, out)
    }

    /** `main` up to the reply loop. */
    constructor (table: seq<Entry>, lines: seq<Line>)
      requires LinesFit(lines)
      ensures Valid() && this.table == table && Abs() == Begin(table, lines)
    {
      this.table := table;
      this.lines := lines;
      runNo, startSent, secClientCount, nodeIndex, sentId := 0, false, 0, 0, 0;
      nodeAddr := new uint8[MAX_IDS](_ => 0);
      recvCount, stopRun, running, out := 0, 0, true, [];
      new;
      assert nodeAddr[..] == Padded([]);
      var more := ReadLineSendReq();
      if !more {
        running := false;
      }
    }

    /** `main` up to the reply loop when the file cannot be opened. */
    constructor WithoutFile(table: seq<Entry>)
      ensures Valid() && this.table == table && Abs() == BeginWithoutFile(table)
    {
      this.table := table;
      lines := [];
      runNo, startSent, secClientCount, nodeIndex, sentId := 0, false, 0, 0, 0;
      nodeAddr := new uint8[MAX_IDS](_ => 0);
      recvCount, stopRun, running, out := 0, 0, true, [];
      new;
      assert nodeAddr[..] == Padded([]);
      SendUnicastSecondRoundReq([DEFAULT_NODE]);
    }

    /** `get_id_from_addr`. */
    method GetIdFromAddr(a: string) returns (id: uint8)
      ensures id == IdOf(table, a)
    {
      hide Compared;
      var i := 0;
      while i < |table|
        invariant 0 <= i <= |table|
        invariant IdOf(table, a) == IdOf(table[i..], a)
      {
        if Compared(a) == Compared(table[i].address) {
          return table[i].id;
        }
        assert table[i..][1..] == table[i + 1..];
        i := i + 1;
      }
      return 0;
    }

    /** `get_addr_from_id`: the text is overwritten whenever an entry has the id. */
    method GetAddrFromId(id: uint8) returns (a: Option<string>)
      ensures a == AddressOf(table, id)
    {
      a := None;
      var i := 0;
      while i < |table|
        invariant 0 <= i <= |table|
        invariant a == AddressOf(table[..i], id)
      {
        assert table[..i + 1][..i] == table[..i];
        if table[i].id == id {
          a := Some(table[i].address);
        }
        i := i + 1;
      }
      assert table[..i] == table;
    }

    /** `send_req_single_node`. */
    method SendReqSingleNode()
      requires Valid() && nodeIndex < MAX_IDS
      modifies this`sentId, this`nodeIndex, this`out
      ensures Valid() && Abs() == SendSingle(table, old(Abs()))
    {
      sentId := nodeAddr[nodeIndex];
      var a := GetAddrFromId(sentId);
      if sentId == 0 { return; }
      var to := if a.Some? then Some(BeforeNewline(a.value)) else None;
      out := out + [Poll(sentId, to, ToByte(runNo))];
      nodeIndex := nodeIndex + 1;
    }

    /** `send_unicast_second_round_req`, with the copy of the request into `local_rpkt`. */
    method SendUnicastSecondRoundReq(ids: seq<int>)
      requires Valid() && |ids| <= MAX_IDS
      modifies this, nodeAddr
      ensures Valid() && Abs() == SendList(table, old(Abs()), ids)
    {
      if !startSent {
        out := out + [Start(ToByte(runNo))];
        startSent := true;
      }
      forall k | 0 <= k < MAX_IDS {
        nodeAddr[k] := if k < |ids| then ToByte(ids[k]) else 0;
      }
      assert nodeAddr[..] == Padded(ids);
      nodeIndex := 0;
      SendReqSingleNode();
    }

    /** `read_line_send_req`. */
    method ReadLineSendReq() returns (more: bool)
      requires Valid()
      modifies this, nodeAddr
      ensures Valid() && (more, Abs()) == ReadLine(table, old(Abs()))
    {
      hide SendList, ToByte;
      while lines != []
        invariant Valid() && ReadLine(table, Abs()) == ReadLine(table, old(Abs()))
        decreases |lines|
      {
        var line := lines[0];
        lines := lines[1..];
        match line
        case RunNo(n) => runNo := n;
        case FaultyNodes =>
        case Stars =>
        case Data(ids) =>
          secClientCount := |ids|;
          SendUnicastSecondRoundReq(ids);
          return true;
      }
      return false;
    }

    /** One reply in the loop of `main`. */
    method Receive(a: string)
      requires Valid() && (Safe(Abs()) || Alone(Abs())) && running
      modifies this, nodeAddr
      ensures Valid() && Abs() == Reply(table, old(Abs()), a) && (Safe(Abs()) || Alone(Abs()))
    {
      hide ReadLine, SendList, IdOf, Destination;
      recvCount := recvCount + 1;
      if secClientCount == recvCount {
        stopRun := ToByte(runNo);
        out := out + [Stop(stopRun)];
        recvCount := 0;
        var more := ReadLineSendReq();
        if !more {
          out := out + [Done(stopRun)];
          running := false;
        }
      } else {
        var id := GetIdFromAddr(a);
        if sentId == id {
          SendReqSingleNode();
        }
      }
    }
  }
}
