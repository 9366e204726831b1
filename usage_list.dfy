/** The popup's list of rows: flattening the usage view's group tree,
    counting filtered usages, assembling and sorting the rows, the column
    count, the caption, and the table model's row insertion and removal. */
module UsageList {
  import opened UsageNodes

  /** USAGES_PAGE_SIZE: the number of usages shown per page. */
  const USAGES_PAGE_SIZE: nat := 100

  /** A group of the usage view's tree: its own usage nodes, then its
      subgroups. */
  datatype GroupNode = GroupNode(usageNodes: seq<UsageNode>, subGroups: seq<GroupNode>)

  /** The visible nodes among a group's own nodes, in order. */
  function VisibleOwn(nodes: seq<UsageNode>, isVisible: Usage -> bool): seq<UsageNode>
  {
    if nodes == [] then []
    else (if isVisible(UsageOf(nodes[0])) then [nodes[0]] else []) + VisibleOwn(nodes[1..], isVisible)
  }

  /** The visible nodes of a tree in pre-order: a group's own nodes before
      those of its subgroups, subgroups in order. */
  function Flatten(g: GroupNode, isVisible: Usage -> bool): seq<UsageNode>
    decreases g, 1
  {
    VisibleOwn(g.usageNodes, isVisible) + FlattenFrom(g, 0, isVisible)
  }

  /** The visible nodes of subgroups `i..` of `g`. */
  function FlattenFrom(g: GroupNode, i: nat, isVisible: Usage -> bool): seq<UsageNode>
    decreases g, 0, |g.subGroups| - i
  {
    if i >= |g.subGroups| then []
    else Flatten(g.subGroups[i], isVisible) + FlattenFrom(g, i + 1, isVisible)
  }

  /** The node sits somewhere in the tree. */
  predicate InTree(n: UsageNode, g: GroupNode)
    decreases g
  {
    n in g.usageNodes || exists i :: 0 <= i < |g.subGroups| && InTree(n, g.subGroups[i])
  }

  lemma {:induction false} VisibleOwnMembers(nodes: seq<UsageNode>, isVisible: Usage -> bool, n: UsageNode)
    ensures n in VisibleOwn(nodes, isVisible) <==> n in nodes && isVisible(UsageOf(n))
  {
    if nodes != [] {
      VisibleOwnMembers(nodes[1..], isVisible, n);
      assert nodes == [nodes[0]] + nodes[1..];
    }
  }

  /** The flattened list holds exactly the visible nodes of the tree. */
  lemma {:induction false} FlattenMembers(g: GroupNode, isVisible: Usage -> bool, n: UsageNode)
    ensures n in Flatten(g, isVisible) <==> isVisible(UsageOf(n)) && InTree(n, g)
    decreases g, 1
  {
    VisibleOwnMembers(g.usageNodes, isVisible, n);
    FlattenFromMembers(g, 0, isVisible, n);
  }

  lemma {:induction false} FlattenFromMembers(g: GroupNode, i: nat, isVisible: Usage -> bool, n: UsageNode)
    ensures n in FlattenFrom(g, i, isVisible)
        <==> isVisible(UsageOf(n)) && exists j :: i <= j < |g.subGroups| && InTree(n, g.subGroups[j])
    decreases g, 0, |g.subGroups| - i
  {
    if i < |g.subGroups| {
      FlattenMembers(g.subGroups[i], isVisible, n);
      FlattenFromMembers(g, i + 1, isVisible, n);
      if isVisible(UsageOf(n)) && exists j :: i <= j < |g.subGroups| && InTree(n, g.subGroups[j]) {
        var j :| i <= j < |g.subGroups| && InTree(n, g.subGroups[j]);
        assert j == i || (i + 1 <= j < |g.subGroups| && InTree(n, g.subGroups[j]));
      }
    }
  }

  /** A group's own visible nodes come first, before any subgroup's. */
  lemma OwnNodesFirst(g: GroupNode, isVisible: Usage -> bool)
    ensures Flatten(g, isVisible)[..|VisibleOwn(g.usageNodes, isVisible)|]
            == VisibleOwn(g.usageNodes, isVisible)
  {
  }

  /** The mutable list that addUsageNodes appends to. */
  class NodeList {
    var items: seq<UsageNode>

    constructor ()
      ensures items == []
    {
      items := [];
    }

    method Add(n: UsageNode)
      modifies this
      ensures items == old(items) + [n]
    {
      items := items + [n];
    }
  }

  /** addUsageNodes: appends the tree's visible nodes to `outNodes`,
      recursing into the subgroups. */
  method AddUsageNodes(root: GroupNode, isVisible: Usage -> bool, outNodes: NodeList)
    modifies outNodes
    ensures outNodes.items == old(outNodes.items) + Flatten(root, isVisible)
    decreases root
  {
    ghost var start := outNodes.items;
    var i := 0;
    while i < |root.usageNodes|
      invariant 0 <= i <= |root.usageNodes|
      invariant outNodes.items + VisibleOwn(root.usageNodes[i..], isVisible)
                == start + VisibleOwn(root.usageNodes, isVisible)
    {
      assert root.usageNodes[i..][1..] == root.usageNodes[i + 1..];
      var node := root.usageNodes[i];
      if isVisible(UsageOf(node)) {
        outNodes.Add(node);
      }
      i := i + 1;
    }
    assert root.usageNodes[i..] == [];
    assert outNodes.items == start + VisibleOwn(root.usageNodes, isVisible);
    assert Flatten(root, isVisible) == VisibleOwn(root.usageNodes, isVisible) + FlattenFrom(root, 0, isVisible);
    var k := 0;
    while k < |root.subGroups|
      invariant 0 <= k <= |root.subGroups|
      invariant outNodes.items + FlattenFrom(root, k, isVisible) == start + Flatten(root, isVisible)
    {
      AddUsageNodes(root.subGroups[k], isVisible, outNodes);
      k := k + 1;
    }
  }

  /** The number of usages the usage view does not show. */
  function HiddenCount(usages: seq<Usage>, isVisible: Usage -> bool): (n: nat)
    ensures n <= |usages|
  {
    if usages == [] then 0
    else (if isVisible(usages[0]) then 0 else 1) + HiddenCount(usages[1..], isVisible)
  }

  lemma {:induction false} HiddenCountZero(usages: seq<Usage>, isVisible: Usage -> bool)
    ensures HiddenCount(usages, isVisible) == 0
        <==> forall i :: 0 <= i < |usages| ==> isVisible(usages[i])
  {
    if usages != [] {
      HiddenCountZero(usages[1..], isVisible);
      assert forall i :: 1 <= i < |usages| ==> usages[i] == usages[1..][i - 1];
    }
  }

  /** `filtered`: counts the usages that are not visible. */
  method Filtered(usages: seq<Usage>, isVisible: Usage -> bool) returns (count: nat)
    ensures count == HiddenCount(usages, isVisible)
  {
    count := 0;
    var i := 0;
    while i < |usages|
      invariant 0 <= i <= |usages|
      invariant count + HiddenCount(usages[i..], isVisible) == HiddenCount(usages, isVisible)
    {
      assert usages[i..][1..] == usages[i + 1..];
      if !isVisible(usages[i]) {
        count := count + 1;
      }
      i := i + 1;
    }
  }

  /** The rows `collectData` sorts: a "filtered out" message when some
      usages are hidden, then the visible nodes; a progress message alone
      when that is empty. */
  function UnsortedData(usages: seq<Usage>, visibleNodes: seq<UsageNode>, isVisible: Usage -> bool,
                        filteredOutMessage: nat -> string, progressText: string): seq<UsageNode>
  {
    var hidden := HiddenCount(usages, isVisible);
    var data := (if hidden != 0 then [StringNode(filteredOutMessage(hidden))] else []) + visibleNodes;
    if data == [] then [StringNode(progressText)] else data
  }

  /** The nodes handed to `collectData` are usage nodes, at most one of
      them the separator. */
  predicate NodesOfView(visibleNodes: seq<UsageNode>)
  {
    Coherent(visibleNodes) && forall i :: 0 <= i < |visibleNodes| ==> !visibleNodes[i].StringNode?
  }

  lemma UnsortedDataCoherent(usages: seq<Usage>, visibleNodes: seq<UsageNode>, isVisible: Usage -> bool,
                             filteredOutMessage: nat -> string, progressText: string)
    requires NodesOfView(visibleNodes)
    ensures Coherent(UnsortedData(usages, visibleNodes, isVisible, filteredOutMessage, progressText))
  {
    var hidden := HiddenCount(usages, isVisible);
    var data := UnsortedData(usages, visibleNodes, isVisible, filteredOutMessage, progressText);
    if hidden != 0 {
      assert data == [StringNode(filteredOutMessage(hidden))] + visibleNodes;
      forall i, j | 0 <= i < j < |data| ensures !Clash(data[i], data[j]) {
        if i > 0 {
          assert data[i] == visibleNodes[i - 1] && data[j] == visibleNodes[j - 1];
        } else {
          assert data[j] == visibleNodes[j - 1];
        }
      }
    }
  }

  lemma UnsortedDataContents(usages: seq<Usage>, visibleNodes: seq<UsageNode>, isVisible: Usage -> bool,
                             filteredOutMessage: nat -> string, progressText: string)
    ensures var hidden := HiddenCount(usages, isVisible);
            var unsorted := UnsortedData(usages, visibleNodes, isVisible, filteredOutMessage, progressText);
            |unsorted| >= 1
            && multiset(unsorted)
               == multiset(visibleNodes)
                  + (if hidden != 0 then multiset{StringNode(filteredOutMessage(hidden))} else multiset{})
                  + (if hidden == 0 && visibleNodes == [] then multiset{StringNode(progressText)} else multiset{})
  {
    var hidden := HiddenCount(usages, isVisible);
    if hidden != 0 {
      var m := StringNode(filteredOutMessage(hidden));
      assert multiset([m] + visibleNodes) == multiset{m} + multiset(visibleNodes);
    }
  }

  /** In a sorted list every earlier node is in the same or a lower band. */
  lemma SortedAllBands(s: seq<UsageNode>)
    requires Sorted(s)
    ensures forall i, j :: 0 <= i < j < |s| ==> Band(s[i]) <= Band(s[j])
  {
    forall i, j | 0 <= i < j < |s| ensures Band(s[i]) <= Band(s[j]) {
      SortedBands(s, i, j);
    }
  }

  /** `collectData`: never empty; holds the visible nodes, the "filtered
      out" message exactly when some usage is hidden, and the progress
      message exactly when there is nothing else; sorted so that every real
      usage comes before the separator, and the separator before messages. */
  function CollectData(usages: seq<Usage>, visibleNodes: seq<UsageNode>, isVisible: Usage -> bool,
                       filteredOutMessage: nat -> string, progressText: string): (data: seq<UsageNode>)
    requires NodesOfView(visibleNodes)
    ensures |data| >= 1
    ensures var hidden := HiddenCount(usages, isVisible);
            multiset(data)
            == multiset(visibleNodes)
               + (if hidden != 0 then multiset{StringNode(filteredOutMessage(hidden))} else multiset{})
               + (if hidden == 0 && visibleNodes == [] then multiset{StringNode(progressText)} else multiset{})
    ensures Sorted(data)
    ensures forall i, j :: 0 <= i < j < |data| ==> Band(data[i]) <= Band(data[j])
  {
    var unsorted := UnsortedData(usages, visibleNodes, isVisible, filteredOutMessage, progressText);
    UnsortedDataContents(usages, visibleNodes, isVisible, filteredOutMessage, progressText);
    UnsortedDataCoherent(usages, visibleNodes, isVisible, filteredOutMessage, progressText);
    SortNodesSorted(unsorted);
    SortedAllBands(SortNodes(unsorted));
    SortNodes(unsorted)
  }

  /** `calcColumnCount`: one column for a list led by a message, three
      otherwise. */
  function CalcColumnCount(data: seq<UsageNode>): (r: nat)
    ensures r == 1 || r == 3
  {
    if data == [] || data[0].StringNode? then 1 else 3
  }

  /** In a list sorted by band, the first row is a message exactly when
      the list holds no usage node. */
  lemma FirstRowIsMessage(data: seq<UsageNode>, visibleNodes: seq<UsageNode>, extra: multiset<UsageNode>)
    requires |data| >= 1
    requires multiset(data) == multiset(visibleNodes) + extra
    requires forall x :: x in extra ==> x.StringNode?
    requires forall i :: 0 <= i < |visibleNodes| ==> !visibleNodes[i].StringNode?
    requires forall i, j :: 0 <= i < j < |data| ==> Band(data[i]) <= Band(data[j])
    ensures data[0].StringNode? <==> visibleNodes == []
  {
    assert data[0] in multiset(data);
    if visibleNodes == [] {
      assert data[0] in extra;
    } else {
      var n := visibleNodes[0];
      assert n in multiset(data);
      var j :| 0 <= j < |data| && data[j] == n;
      assert j == 0 || Band(data[0]) <= Band(data[j]);
    }
  }

  /** The rows of `collectData` get three columns exactly when some usage
      node is visible. */
  lemma CollectedColumns(usages: seq<Usage>, visibleNodes: seq<UsageNode>, isVisible: Usage -> bool,
                         filteredOutMessage: nat -> string, progressText: string)
    requires NodesOfView(visibleNodes)
    ensures CalcColumnCount(CollectData(usages, visibleNodes, isVisible, filteredOutMessage, progressText))
            == if visibleNodes == [] then 1 else 3
  {
    var data := CollectData(usages, visibleNodes, isVisible, filteredOutMessage, progressText);
    var hidden := HiddenCount(usages, isVisible);
    var extra := (if hidden != 0 then multiset{StringNode(filteredOutMessage(hidden))} else multiset{})
                 + (if hidden == 0 && visibleNodes == [] then multiset{StringNode(progressText)} else multiset{});
    FirstRowIsMessage(data, visibleNodes, extra);
  }

  function DigitChar(d: nat): char
    requires d < 10
  {
    "0123456789"[d]
  }

  function DigitValue(c: char): nat
  {
    if '0' <= c <= '9' then (c as int - '0' as int) as nat else 0
  }

  /** The decimal digits of a non-negative number. */
  function Digits(n: nat): (s: string)
    ensures |s| >= 1
  {
    if n < 10 then [DigitChar(n)] else Digits(n / 10) + [DigitChar(n % 10)]
  }

  function ParseDigits(s: string): nat
  {
    if s == [] then 0 else 10 * ParseDigits(s[..|s| - 1]) + DigitValue(s[|s| - 1])
  }

  /** Kotlin's string template for an Int. */
  function IntToString(i: int): string
  {
    if i < 0 then "-" + Digits(-i) else Digits(i)
  }

  lemma DigitValueOfChar(d: nat)
    requires d < 10
    ensures DigitValue(DigitChar(d)) == d
  {
  }

  lemma {:induction false} DigitsRoundTrip(n: nat)
    ensures ParseDigits(Digits(n)) == n
  {
    var s := Digits(n);
    if n < 10 {
      DigitValueOfChar(n);
      assert s[..|s| - 1] == [];
    } else {
      DigitsRoundTrip(n / 10);
      DigitValueOfChar(n % 10);
      assert s[..|s| - 1] == Digits(n / 10);
      assert s[|s| - 1] == DigitChar(n % 10);
      assert ParseDigits(s) == 10 * (n / 10) + n % 10;
    }
  }

  const HTML_OPEN := "<html><nobr>"
  const HTML_CLOSE := "</nobr></html>"
  const SOME := "<b>Some</b> "
  const SO_FAR := " so far"

  predicate StartsWith(s: string, p: string)
  {
    |p| <= |s| && s[..|p|] == p
  }

  predicate EndsWith(s: string, p: string)
  {
    |p| <= |s| && s[|s| - |p|..] == p
  }

  lemma OpenedWith(a: string, b: string, w: string, c: string)
    ensures StartsWith(a + ((b + w) + c), a + b)
  {
    assert a + ((b + w) + c) == (a + b) + (w + c);
  }

  lemma ClosedWith(a: string, b: string, c: string)
    ensures EndsWith(a + (b + c), c)
  {
    assert a + (b + c) == (a + b) + c;
  }

  lemma Wrapped(a: string, b: string, c: string, d: string)
    ensures StartsWith(a + (b + (c + d)), a) && EndsWith(a + (b + (c + d)), d)
  {
    assert a + (b + (c + d)) == (a + b + c) + d;
  }

  /** The caption's words before its closing parenthesis. */
  function TitleBody(usages: seq<Usage>, title: string, hadMoreSeparator: bool,
                     visibleNodesCount: int, usagesN: nat -> string): string
  {
    if hadMoreSeparator then SOME + OnlyShown(title, visibleNodesCount)
    else title + " (" + usagesN(|usages|)
  }

  function OnlyShown(title: string, visibleNodesCount: int): string
  {
    title + " " + "<b>(Only " + IntToString(visibleNodesCount) + " usages shown"
  }

  /** The caption's close: " so far" while the search runs, then the
      closing parenthesis (and bold tag). */
  function TitleClose(hadMoreSeparator: bool, findUsagesInProgress: bool): string
  {
    (if findUsagesInProgress then SO_FAR else "") + (if hadMoreSeparator then ")</b>" else ")")
  }

  /** `getFullTitle`: the caption, wrapped for HTML. */
  function GetFullTitle(usages: seq<Usage>, title: string, hadMoreSeparator: bool,
                        visibleNodesCount: int, findUsagesInProgress: bool,
                        usagesN: nat -> string): string
  {
    HTML_OPEN
    + (TitleBody(usages, title, hadMoreSeparator, visibleNodesCount, usagesN)
       + (TitleClose(hadMoreSeparator, findUsagesInProgress) + HTML_CLOSE))
  }

  /** The caption is wrapped in `<html><nobr>` ... `</nobr></html>`. */
  lemma FullTitleWrapped(usages: seq<Usage>, title: string, hadMoreSeparator: bool,
                         visibleNodesCount: int, findUsagesInProgress: bool, usagesN: nat -> string)
    ensures var r := GetFullTitle(usages, title, hadMoreSeparator, visibleNodesCount,
                                  findUsagesInProgress, usagesN);
            StartsWith(r, HTML_OPEN) && EndsWith(r, HTML_CLOSE)
  {
    Wrapped(HTML_OPEN, TitleBody(usages, title, hadMoreSeparator, visibleNodesCount, usagesN),
            TitleClose(hadMoreSeparator, findUsagesInProgress), HTML_CLOSE);
  }

  /** A truncated list's caption opens with "Some". */
  lemma FullTitleSome(usages: seq<Usage>, title: string, visibleNodesCount: int,
                      findUsagesInProgress: bool, usagesN: nat -> string)
    ensures StartsWith(GetFullTitle(usages, title, true, visibleNodesCount, findUsagesInProgress, usagesN),
                       HTML_OPEN + SOME)
  {
    OpenedWith(HTML_OPEN, SOME, OnlyShown(title, visibleNodesCount),
               TitleClose(true, findUsagesInProgress) + HTML_CLOSE);
  }

  /** A caption given while the search runs ends with "so far", the
      closing parenthesis and the closing tags. */
  lemma FullTitleSoFar(usages: seq<Usage>, title: string, hadMoreSeparator: bool,
                       visibleNodesCount: int, usagesN: nat -> string)
    ensures EndsWith(GetFullTitle(usages, title, hadMoreSeparator, visibleNodesCount, true, usagesN),
                     TitleClose(hadMoreSeparator, true) + HTML_CLOSE)
    ensures TitleClose(hadMoreSeparator, true) == SO_FAR + (if hadMoreSeparator then ")</b>" else ")")
  {
    ClosedWith(HTML_OPEN, TitleBody(usages, title, hadMoreSeparator, visibleNodesCount, usagesN),
               TitleClose(hadMoreSeparator, true) + HTML_CLOSE);
  }

  /** With the separator the caption reports the given count and ignores
      the usages; without it, it reports the number of usages and ignores
      the count. */
  lemma FullTitleReports(u1: seq<Usage>, u2: seq<Usage>, title: string, hadMoreSeparator: bool,
                         c1: int, c2: int, findUsagesInProgress: bool, usagesN: nat -> string)
    requires if hadMoreSeparator then c1 == c2 else |u1| == |u2|
    ensures GetFullTitle(u1, title, hadMoreSeparator, c1, findUsagesInProgress, usagesN)
            == GetFullTitle(u2, title, hadMoreSeparator, c2, findUsagesInProgress, usagesN)
  {
  }

  /** `appendMoreUsages`: the search is run again with one more page. */
  function AppendMoreUsages(maxUsages: nat): (newMax: nat)
    ensures newMax > maxUsages
    ensures newMax % USAGES_PAGE_SIZE == maxUsages % USAGES_PAGE_SIZE
  {
    maxUsages + USAGES_PAGE_SIZE
  }

  /** The limit after `presses` clicks on "more usages": the first search
      shows one page (lines 123, 129), and each click adds a page. */
  function MaxUsagesAfter(presses: nat): nat
  {
    if presses == 0 then USAGES_PAGE_SIZE else AppendMoreUsages(MaxUsagesAfter(presses - 1))
  }

  /** Each click turns `k` pages into `k + 1`: after `presses` clicks the
      popup shows `presses + 1` whole pages. */
  lemma {:induction false} AppendMoreUsagesPages(presses: nat)
    ensures AppendMoreUsages(presses * USAGES_PAGE_SIZE) == (presses + 1) * USAGES_PAGE_SIZE
    ensures MaxUsagesAfter(presses) == (presses + 1) * USAGES_PAGE_SIZE
  {
    if presses > 0 {
      AppendMoreUsagesPages(presses - 1);
    }
  }

  /** What the table model is handed: a node, or any other object, shown
      through a StringNode of its text. */
  datatype Element = NodeElement(node: UsageNode) | OtherElement(text: string)

  function AsNode(e: Element): UsageNode
  {
    match e
    case NodeElement(n) => n
    case OtherElement(t) => StringNode(t)
  }

  /** The rows after inserting at `idx`, or appending when `idx` is past
      the end. */
  function InsertedAt(rows: seq<UsageNode>, idx: nat, n: UsageNode): seq<UsageNode>
  {
    if idx < |rows| then rows[..idx] + [n] + rows[idx..] else rows + [n]
  }

  /** The rows without `start..end` (inclusive); nothing is removed when
      `start > end`. */
  function RemovedRange(rows: seq<UsageNode>, start: int, end: int): seq<UsageNode>
    requires start <= end ==> 0 <= start && end < |rows|
  {
    if start > end then rows else rows[..start] + rows[end + 1..]
  }

  /** Inserting then removing the inserted row gives back the rows; the
      new row is where it was put, or last. */
  lemma InsertThenRemove(rows: seq<UsageNode>, idx: nat, n: UsageNode)
    ensures var p := if idx < |rows| then idx else |rows|;
            var r := InsertedAt(rows, idx, n);
            |r| == |rows| + 1 && r[p] == n
            && RemovedRange(r, p, p) == rows
  {
    if idx < |rows| {
      var r := InsertedAt(rows, idx, n);
      assert r[..idx] == rows[..idx] && r[idx + 1..] == rows[idx..];
      assert rows == rows[..idx] + rows[idx..];
    }
  }

  /** Removing a range keeps the rows before it and the rows after it, in
      order. */
  lemma RemovedRangeKeeps(rows: seq<UsageNode>, start: int, end: int)
    requires 0 <= start <= end < |rows|
    ensures var r := RemovedRange(rows, start, end);
            |r| == |rows| - (end - start + 1)
            && (forall i :: 0 <= i < start ==> r[i] == rows[i])
            && (forall i :: start <= i < |r| ==> r[i] == rows[i + end - start + 1])
  {
    var front := rows[..start];
    var back := rows[end + 1..];
    var r := front + back;
    assert forall i :: 0 <= i < start ==> r[i] == front[i];
    assert forall i :: start <= i < |r| ==> r[i] == back[i - start];
  }

  /** MyModel: the popup table's rows. */
  class MyModel {
    var items: seq<UsageNode>
    const columnCount: nat

    constructor (data: seq<UsageNode>, cols: nat)
      ensures items == data && columnCount == cols
    {
      items := data;
      columnCount := cols;
    }

    function RowCount(): nat
      reads this
    {
      |items|
    }

    /** `addToModel`: insertRow when `idx` is a row, addRow otherwise. */
    method AddToModel(idx: nat, element: Element)
      modifies this
      ensures items == InsertedAt(old(items), idx, AsNode(element))
    {
      var node := AsNode(element);
      if idx < RowCount() {
        items := items[..idx] + [node] + items[idx..];
      } else {
        items := items + [node];
      }
    }

    /** `removeRangeFromModel`: removes rows `end` down to `start`. */
    method RemoveRangeFromModel(start: int, end: int)
      requires start <= end ==> 0 <= start && end < |items|
      modifies this
      ensures items == RemovedRange(old(items), start, end)
    {
      var i := end;
      while i >= start
        invariant start <= end ==> start - 1 <= i <= end
        invariant start <= end ==> items == old(items)[..i + 1] + old(items)[end + 1..]
        invariant start > end ==> items == old(items)
        decreases i - start
      {
        items := items[..i] + items[i + 1..];
        i := i - 1;
      }
    }
  }
}
