/** The `collect` processor of ShowUsagesAction: takes the usages the host
    search finds, one at a time, into the `usages` list and the
    `visibleNodes` set, stops at `maxUsages` with a "more usages"
    separator; and the choice made when the search completes.

    The host's answers for one usage (the filter's verdict, whether it is
    a usage of the searched element itself, whether the usage view made a
    node for it) are given as a `Delivery`. */
module Collector {
  import opened Outcomes
  import opened UsageNodes
  import opened UsageList
  import opened Scheduler

  /** One usage handed to `process`, with the host's answers about it. */
  datatype Delivery = Delivery(
    usage: Usage,
    verdict: Outcome<bool>,   // filter.shouldShow(usage)
    selfUsage: bool,          // UsageViewManager.isSelfUsage
    appended: bool)           // doAppendUsage returned the usage's node

  /** The collected usages and the visible nodes (the LinkedHashSet, in
      insertion order). */
  datatype Session = Session(usages: seq<Usage>, visibleNodes: seq<UsageNode>)

  /** What one `process` call leaves: the session, whether the search
      goes on, and whether it pinged the scheduler. */
  datatype Processed = Processed(session: Session, continueSearch: bool, pinged: bool)

  /** LinkedHashSet.add: appends an element that is not there yet. */
  function SetAdd(s: seq<UsageNode>, x: UsageNode): (r: seq<UsageNode>)
    ensures x in r && multiset(s) <= multiset(r)
    ensures |r| == |s| + (if x in s then 0 else 1)
  {
    if x in s then s else s + [x]
  }

  /** `process`, lines 226-249. */
  function Process(maxUsages: nat, s: Session, d: Delivery): Outcome<Processed>
  {
    match d.verdict
    case Raised(e) => Raised(e)
    case Value(shown) =>
      if !shown then Value(Processed(s, true, false))
      else if |s.visibleNodes| >= maxUsages then Value(Processed(s, false, false))
      else if d.selfUsage then Value(Processed(s, true, false))
      else
        var usages := s.usages + [d.usage];
        if !d.appended then Value(Processed(Session(usages, s.visibleNodes), true, false))
        else
          var visible := SetAdd(s.visibleNodes, UsageNode(d.usage));
          if |visible| == maxUsages then
            Value(Processed(Session(usages + [MORE_USAGES_SEPARATOR],
                                    SetAdd(visible, MORE_USAGES_SEPARATOR_NODE)), false, true))
          else Value(Processed(Session(usages, visible), true, true))
  }

  predicate NoDuplicates(s: seq<UsageNode>)
  {
    forall i, j :: 0 <= i < j < |s| ==> s[i] != s[j]
  }

  /** The list has been cut: the separator is in it. */
  predicate Truncated(s: Session)
  {
    MORE_USAGES_SEPARATOR_NODE in s.visibleNodes
  }

  /** What `process` keeps true of the session. */
  ghost predicate Inv(maxUsages: nat, s: Session)
  {
    && NoDuplicates(s.visibleNodes)
    && (forall i :: 0 <= i < |s.visibleNodes| ==> s.visibleNodes[i].UsageNode?)
    && (forall i :: 0 <= i < |s.visibleNodes| ==> s.visibleNodes[i].usage in s.usages)
    && (Truncated(s) <==> MORE_USAGES_SEPARATOR in s.usages)
    && (Truncated(s) ==>
          && maxUsages >= 1
          && |s.visibleNodes| == maxUsages + 1
          && s.visibleNodes[maxUsages] == MORE_USAGES_SEPARATOR_NODE
          && s.usages[|s.usages| - 1] == MORE_USAGES_SEPARATOR)
    && (!Truncated(s) ==> |s.visibleNodes| < maxUsages || s.visibleNodes == [])
  }

  /** The host delivers found usages, never the separator sentinel. */
  predicate Deliverable(d: Delivery)
  {
    d.usage != MORE_USAGES_SEPARATOR
  }

  lemma EmptySessionInv(maxUsages: nat)
    ensures Inv(maxUsages, Session([], []))
  {
  }

  /** Appending an accepted usage to `usages` keeps the invariant. */
  lemma AddUsageKeepsInv(maxUsages: nat, s: Session, u: Usage)
    requires Inv(maxUsages, s) && u != MORE_USAGES_SEPARATOR && !Truncated(s)
    ensures Inv(maxUsages, Session(s.usages + [u], s.visibleNodes))
  {
    var t := Session(s.usages + [u], s.visibleNodes);
    assert forall i :: 0 <= i < |t.visibleNodes| ==> t.visibleNodes[i].usage in t.usages by {
      forall i | 0 <= i < |t.visibleNodes| ensures t.visibleNodes[i].usage in t.usages {
        assert t.visibleNodes[i].usage in s.usages;
      }
    }
  }

  /** Adding the node of a collected usage keeps the invariant, and so
      does cutting the list when that fills it. */
  lemma AddNodeKeepsInv(maxUsages: nat, s: Session, u: Usage)
    requires Inv(maxUsages, s) && u != MORE_USAGES_SEPARATOR && u in s.usages
    requires |s.visibleNodes| < maxUsages
    ensures var visible := SetAdd(s.visibleNodes, UsageNode(u));
            && (|visible| != maxUsages ==> Inv(maxUsages, Session(s.usages, visible)))
            && (|visible| == maxUsages ==>
                  Inv(maxUsages, Session(s.usages + [MORE_USAGES_SEPARATOR],
                                         SetAdd(visible, MORE_USAGES_SEPARATOR_NODE))))
  {
    var node := UsageNode(u);
    var visible := SetAdd(s.visibleNodes, node);
    assert !Truncated(s);
    assert node != MORE_USAGES_SEPARATOR_NODE;
    assert forall i :: 0 <= i < |visible| ==> visible[i].UsageNode? && visible[i].usage in s.usages by {
      forall i | 0 <= i < |visible| ensures visible[i].UsageNode? && visible[i].usage in s.usages {
        if i < |s.visibleNodes| {
          assert visible[i] == s.visibleNodes[i];
        }
      }
    }
    assert MORE_USAGES_SEPARATOR_NODE !in visible;
    assert NoDuplicates(visible);
    if |visible| == maxUsages {
      var full := visible + [MORE_USAGES_SEPARATOR_NODE];
      var usages := s.usages + [MORE_USAGES_SEPARATOR];
      assert SetAdd(visible, MORE_USAGES_SEPARATOR_NODE) == full;
      assert full[maxUsages] == MORE_USAGES_SEPARATOR_NODE;
      assert NoDuplicates(full);
      assert forall i :: 0 <= i < |full| ==> full[i].usage in usages by {
        forall i | 0 <= i < |full| ensures full[i].usage in usages {
          if i < |visible| {
            assert visible[i].usage in s.usages;
          }
        }
      }
    }
  }

  /** `process` keeps the invariant; in particular the visible nodes never
      exceed `maxUsages + 1`, and the separator is last in both lists once
      present. */
  lemma ProcessKeepsInv(maxUsages: nat, s: Session, d: Delivery)
    requires Inv(maxUsages, s) && Deliverable(d)
    ensures Process(maxUsages, s, d).Value? ==> Inv(maxUsages, Process(maxUsages, s, d).value.session)
    ensures Process(maxUsages, s, d).Value? ==>
              |Process(maxUsages, s, d).value.session.visibleNodes| <= maxUsages + 1
  {
    if d.verdict == Value(true) && |s.visibleNodes| < maxUsages && !d.selfUsage {
      AddUsageKeepsInv(maxUsages, s, d.usage);
      if d.appended {
        AddNodeKeepsInv(maxUsages, Session(s.usages + [d.usage], s.visibleNodes), d.usage);
      }
    }
  }

  /** A usage the filter rejects, a self-usage, and any usage once the list
      is full leave the session as it was; only the first two let the
      search go on. */
  lemma ProcessIgnores(maxUsages: nat, s: Session, d: Delivery)
    requires d.verdict.Value?
    requires !d.verdict.value || d.selfUsage || |s.visibleNodes| >= maxUsages
    ensures Process(maxUsages, s, d).Value?
    ensures var p := Process(maxUsages, s, d).value;
            p.session == s && !p.pinged
            && (p.continueSearch <==> !d.verdict.value || |s.visibleNodes| < maxUsages)
  {
  }

  /** An accepted usage is added to `usages`; its node, when the view made
      one, joins the visible nodes and pings once. The search stops exactly
      when that brings the visible count to `maxUsages`, and then the
      separator is appended last to both lists. */
  lemma ProcessAccepts(maxUsages: nat, s: Session, d: Delivery)
    requires Inv(maxUsages, s) && Deliverable(d)
    requires d.verdict == Value(true) && !d.selfUsage && |s.visibleNodes| < maxUsages
    ensures Process(maxUsages, s, d).Value?
    ensures var p := Process(maxUsages, s, d).value;
            var t := p.session;
            && t.usages[..|s.usages| + 1] == s.usages + [d.usage]
            && (p.pinged <==> d.appended)
            && (!d.appended ==> t == Session(s.usages + [d.usage], s.visibleNodes) && p.continueSearch)
            && (d.appended ==> UsageNode(d.usage) in t.visibleNodes)
            && (!p.continueSearch <==> Truncated(t))
            && (Truncated(t) ==>
                  && t.usages == s.usages + [d.usage, MORE_USAGES_SEPARATOR]
                  && |t.visibleNodes| == maxUsages + 1
                  && t.visibleNodes[maxUsages] == MORE_USAGES_SEPARATOR_NODE)
  {
    assert !Truncated(s);
    var usages := s.usages + [d.usage];
    if d.appended {
      var visible := SetAdd(s.visibleNodes, UsageNode(d.usage));
      assert MORE_USAGES_SEPARATOR_NODE !in visible;
      if |visible| == maxUsages {
        assert SetAdd(visible, MORE_USAGES_SEPARATOR_NODE) == visible + [MORE_USAGES_SEPARATOR_NODE];
        assert usages + [MORE_USAGES_SEPARATOR] == s.usages + [d.usage, MORE_USAGES_SEPARATOR];
      }
    }
  }

  /** Running the processor over the deliveries, until it asks to stop or
      an exception escapes. */
  function Collect(maxUsages: nat, s: Session, ds: seq<Delivery>): Outcome<Session>
    decreases |ds|
  {
    if ds == [] then Value(s)
    else match Process(maxUsages, s, ds[0])
      case Raised(e) => Raised(e)
      case Value(p) => if !p.continueSearch then Value(p.session) else Collect(maxUsages, p.session, ds[1..])
  }

  /** A usage that was delivered, passed the filter and is not a
      self-usage. */
  predicate Accepted(u: Usage, ds: seq<Delivery>)
  {
    exists i :: 0 <= i < |ds| && ds[i].usage == u && ds[i].verdict == Value(true) && !ds[i].selfUsage
  }

  /** Whatever the collection ends with keeps the invariant, holds at most
      `maxUsages + 1` visible nodes, and contains only accepted usages and
      the separator. */
  lemma {:induction false} CollectKeepsInv(maxUsages: nat, s: Session, ds: seq<Delivery>, all: seq<Delivery>)
    requires Inv(maxUsages, s)
    requires forall i :: 0 <= i < |ds| ==> Deliverable(ds[i]) && ds[i] in all
    requires forall u :: u in s.usages ==> u == MORE_USAGES_SEPARATOR || Accepted(u, all)
    ensures var r := Collect(maxUsages, s, ds);
            r.Value? ==>
              && Inv(maxUsages, r.value)
              && |r.value.visibleNodes| <= maxUsages + 1
              && forall u :: u in r.value.usages ==> u == MORE_USAGES_SEPARATOR || Accepted(u, all)
    decreases |ds|
  {
    if ds != [] {
      var d := ds[0];
      ProcessKeepsInv(maxUsages, s, d);
      match Process(maxUsages, s, d)
      case Raised(_) =>
      case Value(p) =>
        var t := p.session;
        assert t.usages == s.usages || t.usages == s.usages + [d.usage]
               || t.usages == s.usages + [d.usage, MORE_USAGES_SEPARATOR];
        forall u | u in t.usages
          ensures u == MORE_USAGES_SEPARATOR || Accepted(u, all)
        {
          if u !in s.usages && u != MORE_USAGES_SEPARATOR {
            assert u == d.usage && d.verdict == Value(true) && !d.selfUsage;
            var k :| 0 <= k < |all| && all[k] == d;
          }
        }
        if p.continueSearch {
          CollectKeepsInv(maxUsages, t, ds[1..], all);
        }
    }
  }

  /** `getEditorFor` and `document.getLineNumber`, from the host: an editor
      is named by a number. */
  function UsageOffset(u: Usage): int
  {
    if u.Adapter? && u.element.Some? then u.offset else -1
  }

  /** Every usage is in the visible usage's editor, at a known offset, on
      its line. */
  predicate AllInOneLine(visibleUsage: Usage, usages: seq<Usage>,
                         editorFor: Usage -> Option<nat>, lineOf: (nat, int) -> int)
  {
    && editorFor(visibleUsage).Some?
    && UsageOffset(visibleUsage) != -1
    && var editor := editorFor(visibleUsage).value;
       forall i :: 0 <= i < |usages| ==>
         && editorFor(usages[i]) == Some(editor)
         && UsageOffset(usages[i]) != -1
         && lineOf(editor, UsageOffset(usages[i])) == lineOf(editor, UsageOffset(visibleUsage))
  }

  /** `areAllUsagesInOneLine`. */
  method AreAllUsagesInOneLine(visibleUsage: Usage, usages: seq<Usage>,
                               editorFor: Usage -> Option<nat>, lineOf: (nat, int) -> int)
    returns (r: bool)
    ensures r <==> AllInOneLine(visibleUsage, usages, editorFor, lineOf)
  {
    var editor := editorFor(visibleUsage);
    if editor.None? {
      return false;
    }
    var offset := UsageOffset(visibleUsage);
    if offset == -1 {
      return false;
    }
    var lineNumber := lineOf(editor.value, offset);
    var i := 0;
    while i < |usages|
      invariant 0 <= i <= |usages|
      invariant forall j :: 0 <= j < i ==>
                  && editorFor(usages[j]) == editor
                  && UsageOffset(usages[j]) != -1
                  && lineOf(editor.value, UsageOffset(usages[j])) == lineNumber
    {
      var other := usages[i];
      var otherEditor := editorFor(other);
      if otherEditor != editor {
        return false;
      }
      var otherOffset := UsageOffset(other);
      if otherOffset == -1 {
        return false;
      }
      if lineOf(otherEditor.value, otherOffset) != lineNumber {
        return false;
      }
      i := i + 1;
    }
    return true;
  }

  /** What the completion handler does. */
  datatype CompletionOutcome =
    | NoUsagesHint                                 // "no usages found" hint, popup cancelled
    | AllFilteredOut                               // nothing
    | NavigateToOnlyUsage(usage: Usage)            // navigate, popup cancelled
    | HintAllInOneLine(usage: Usage, count: nat)   // navigate and hint, popup cancelled
    | KeepPopup                                    // nothing
    | SetCaption(caption: string)

  /** The completion handler's choice, lines 267-312. */
  function Completion(s: Session, title: string, usagesN: nat -> string,
                      editorFor: Usage -> Option<nat>, lineOf: (nat, int) -> int): CompletionOutcome
  {
    if s.visibleNodes == [] then
      if s.usages == [] then NoUsagesHint else AllFilteredOut
    else if |s.visibleNodes| == 1 then
      var visibleUsage := UsageOf(s.visibleNodes[0]);
      if |s.usages| == 1 then NavigateToOnlyUsage(visibleUsage)
      else if AllInOneLine(visibleUsage, s.usages, editorFor, lineOf) then
        HintAllInOneLine(visibleUsage, |s.usages|)
      else KeepPopup
    else
      var more := Truncated(s);
      SetCaption(GetFullTitle(s.usages, title, more,
                              |s.visibleNodes| - (if more then 1 else 0), false, usagesN))
  }

  /** The five outcomes by the final counts. */
  lemma CompletionByCounts(s: Session, title: string, usagesN: nat -> string,
                           editorFor: Usage -> Option<nat>, lineOf: (nat, int) -> int)
    ensures var c := Completion(s, title, usagesN, editorFor, lineOf);
            && (c == NoUsagesHint <==> s.visibleNodes == [] && s.usages == [])
            && (c == AllFilteredOut <==> s.visibleNodes == [] && s.usages != [])
            && (c.NavigateToOnlyUsage? <==> |s.visibleNodes| == 1 && |s.usages| == 1)
            && (c.HintAllInOneLine? <==>
                  |s.visibleNodes| == 1 && |s.usages| != 1
                  && AllInOneLine(UsageOf(s.visibleNodes[0]), s.usages, editorFor, lineOf))
            && (c.SetCaption? <==> |s.visibleNodes| >= 2)
  {
  }

  /** With one visible node, the node shows a real usage and the usages
      are not empty, so the assertion of line 288 holds. */
  lemma OneVisibleNode(maxUsages: nat, s: Session)
    requires Inv(maxUsages, s) && |s.visibleNodes| == 1
    ensures IsRealNode(s.visibleNodes[0])
    ensures |s.usages| != 1 ==> |s.usages| > 1
  {
    if s.visibleNodes[0] == MORE_USAGES_SEPARATOR_NODE {
      assert Truncated(s);
    }
    assert s.visibleNodes[0].usage in s.usages;
  }

  /** A truncated list reports "Only maxUsages usages shown". */
  lemma TruncatedCaption(maxUsages: nat, s: Session, title: string, usagesN: nat -> string,
                         editorFor: Usage -> Option<nat>, lineOf: (nat, int) -> int)
    requires Inv(maxUsages, s) && Truncated(s) && maxUsages >= 1
    ensures Completion(s, title, usagesN, editorFor, lineOf)
            == SetCaption(GetFullTitle(s.usages, title, true, maxUsages, false, usagesN))
  {
  }

  /** The popup's rows and caption after a refresh (`rebuildPopup`): the
      tree's visible nodes, with the separator when the usages hold it. */
  datatype Rebuilt = Rebuilt(caption: string, data: seq<UsageNode>, columns: nat)

  /** The tree's visible nodes, followed by the separator when the usages
      hold it (lines 606-609). */
  function NodesWithSeparator(usages: seq<Usage>, nodes: seq<UsageNode>): (all: seq<UsageNode>)
    requires forall i :: 0 <= i < |nodes| ==> IsRealNode(nodes[i])
    ensures NodesOfView(all)
    ensures |all| == |nodes| + (if MORE_USAGES_SEPARATOR in usages then 1 else 0)
    ensures all[..|nodes|] == nodes
    ensures MORE_USAGES_SEPARATOR_NODE in all <==> MORE_USAGES_SEPARATOR in usages
  {
    var all := if MORE_USAGES_SEPARATOR in usages then nodes + [MORE_USAGES_SEPARATOR_NODE] else nodes;
    forall i | 0 <= i < |nodes| ensures nodes[i] != MORE_USAGES_SEPARATOR_NODE {
      assert IsRealNode(nodes[i]);
    }
    assert NodesOfView(all) by {
      forall i, j | 0 <= i < j < |all| ensures !Clash(all[i], all[j]) {
        assert IsRealNode(all[i]);
      }
      forall i | 0 <= i < |all| ensures !all[i].StringNode? {
        if i < |nodes| {
          assert IsRealNode(nodes[i]);
        }
      }
    }
    all
  }

  function RebuildPopup(usages: seq<Usage>, nodes: seq<UsageNode>, title: string,
                        findUsagesInProgress: bool, usagesN: nat -> string,
                        isVisible: Usage -> bool, filteredOutMessage: nat -> string,
                        progressText: string): Rebuilt
    requires forall i :: 0 <= i < |nodes| ==> IsRealNode(nodes[i])
  {
    var more := MORE_USAGES_SEPARATOR in usages;
    var all := NodesWithSeparator(usages, nodes);
    var data := CollectData(usages, all, isVisible, filteredOutMessage, progressText);
    Rebuilt(GetFullTitle(usages, title, more, |all| - (if more then 1 else 0), findUsagesInProgress, usagesN),
            data, CalcColumnCount(data))
  }

  /** The refreshed caption counts the tree's visible nodes; the rows hold
      them, and the separator when the list was cut. */
  lemma RebuildPopupCounts(usages: seq<Usage>, nodes: seq<UsageNode>, title: string,
                           findUsagesInProgress: bool, usagesN: nat -> string,
                           isVisible: Usage -> bool, filteredOutMessage: nat -> string,
                           progressText: string)
    requires forall i :: 0 <= i < |nodes| ==> IsRealNode(nodes[i])
    ensures var more := MORE_USAGES_SEPARATOR in usages;
            var r := RebuildPopup(usages, nodes, title, findUsagesInProgress, usagesN,
                                  isVisible, filteredOutMessage, progressText);
            && r.caption == GetFullTitle(usages, title, more, |nodes|, findUsagesInProgress, usagesN)
            && multiset(nodes) <= multiset(r.data)
            && (more <==> MORE_USAGES_SEPARATOR_NODE in r.data)
            && (r.columns == 3 <==> nodes != [] || more)
  {
    var all := NodesWithSeparator(usages, nodes);
    var r := RebuildPopup(usages, nodes, title, findUsagesInProgress, usagesN,
                          isVisible, filteredOutMessage, progressText);
    CollectedColumns(usages, all, isVisible, filteredOutMessage, progressText);
    assert multiset(all) <= multiset(r.data);
    assert all == nodes + all[|nodes|..];
    assert MORE_USAGES_SEPARATOR_NODE in r.data <==> MORE_USAGES_SEPARATOR_NODE in multiset(r.data);
    assert MORE_USAGES_SEPARATOR_NODE in all <==> MORE_USAGES_SEPARATOR_NODE in multiset(all);
    assert MORE_USAGES_SEPARATOR_NODE !in multiset(r.data) - multiset(all);
  }

  /** The state `process` updates in place, and its scheduler. */
  class UsageCollector {
    var usages: seq<Usage>
    var visibleNodes: seq<UsageNode>
    const maxUsages: nat
    const hadMoreSeparator: bool
    const pingEDT: PingEDT

    ghost predicate Valid()
      reads this, pingEDT
    {
      Inv(maxUsages, Session(usages, visibleNodes)) && pingEDT.Valid()
    }

    /** Lines 168-179: the separator is removed from a set just created,
        so `hadMoreSeparator` is false and nothing is re-added. */
    constructor (maxUsages: nat, pingEDT: PingEDT)
      requires pingEDT.Valid()
      ensures Valid() && !hadMoreSeparator
      ensures usages == [] && visibleNodes == []
      ensures this.maxUsages == maxUsages && this.pingEDT == pingEDT
    {
      this.maxUsages := maxUsages;
      this.pingEDT := pingEDT;
      var us: seq<Usage> := [];
      var vs: seq<UsageNode> := [];
      var had := MORE_USAGES_SEPARATOR_NODE in vs;
      if had {
        us := us + [MORE_USAGES_SEPARATOR];
        vs := vs + [MORE_USAGES_SEPARATOR_NODE];
      }
      hadMoreSeparator := had;
      usages, visibleNodes := us, vs;
    }

    /** `process`: updates the lists as `Process` says, pings the
        scheduler when the view appended a node, and returns whether the
        search goes on. */
    method ProcessUsage(d: Delivery) returns (r: Outcome<bool>)
      requires Valid() && Deliverable(d)
      modifies this, pingEDT
      ensures Valid()
      ensures var p := Process(maxUsages, old(Session(usages, visibleNodes)), d);
              && (p.Raised? ==> r == Raised(p.exception)
                                && usages == old(usages) && visibleNodes == old(visibleNodes))
              && (p.Value? ==> r == Value(p.value.continueSearch)
                               && Session(usages, visibleNodes) == p.value.session
                               && pingEDT.pinged == (old(pingEDT.pinged) || p.value.pinged))
      ensures pingEDT.stopped == old(pingEDT.stopped)
      ensures var p := Process(maxUsages, old(Session(usages, visibleNodes)), d);
              if p.Value? && p.value.pinged then
                // the ping queues an update unless one is pending or the scheduler is stopped
                && pingEDT.invokeLaterScheduled == (old(pingEDT.invokeLaterScheduled) || !old(pingEDT.stopped))
                && pingEDT.queued == (if pingEDT.invokeLaterScheduled then 1 else 0)
              else
                // no ping: the scheduler is left as it was
                && pingEDT.pinged == old(pingEDT.pinged)
                && pingEDT.invokeLaterScheduled == old(pingEDT.invokeLaterScheduled)
                && pingEDT.queued == old(pingEDT.queued)
    {
      ProcessKeepsInv(maxUsages, Session(usages, visibleNodes), d);
      match d.verdict {
        case Raised(e) =>
          return Raised(e);
        case Value(shown) =>
          if !shown {
            return Value(true);
          }
      }
      if |visibleNodes| >= maxUsages {
        return Value(false);
      }
      if d.selfUsage {
        return Value(true);
      }
      usages := usages + [d.usage];
      if d.appended {
        visibleNodes := SetAdd(visibleNodes, UsageNode(d.usage));
        var continueSearch := true;
        if |visibleNodes| == maxUsages {
          visibleNodes := SetAdd(visibleNodes, MORE_USAGES_SEPARATOR_NODE);
          usages := usages + [MORE_USAGES_SEPARATOR];
          continueSearch := false;
        }
        var _ := pingEDT.Ping();
        return Value(continueSearch);
      }
      return Value(true);
    }

    /** The completion handler: pings to repaint the title, then chooses
        by the counts. */
    method OnSearchFinished(title: string, usagesN: nat -> string,
                            editorFor: Usage -> Option<nat>, lineOf: (nat, int) -> int)
      returns (c: CompletionOutcome)
      requires Valid()
      modifies pingEDT
      ensures Valid() && pingEDT.pinged && pingEDT.stopped == old(pingEDT.stopped)
      ensures pingEDT.invokeLaterScheduled == (old(pingEDT.invokeLaterScheduled) || !old(pingEDT.stopped))
      ensures pingEDT.queued == (if pingEDT.invokeLaterScheduled then 1 else 0)
      ensures c == Completion(Session(usages, visibleNodes), title, usagesN, editorFor, lineOf)
    {
      var _ := pingEDT.Ping();
      if |visibleNodes| == 0 {
        if |usages| == 0 {
          return NoUsagesHint;
        }
        return AllFilteredOut;
      } else if |visibleNodes| == 1 {
        var visibleUsage := UsageOf(visibleNodes[0]);
        if |usages| == 1 {
          return NavigateToOnlyUsage(visibleUsage);
        }
        OneVisibleNode(maxUsages, Session(usages, visibleNodes));
        assert |usages| > 1;
        var oneLine := AreAllUsagesInOneLine(visibleUsage, usages, editorFor, lineOf);
        if oneLine {
          return HintAllInOneLine(visibleUsage, |usages|);
        }
        return KeepPopup;
      }
      var more := MORE_USAGES_SEPARATOR_NODE in visibleNodes;
      return SetCaption(GetFullTitle(usages, title, more,
                                     |visibleNodes| - (if more then 1 else 0), false, usagesN));
    }
  }
}
