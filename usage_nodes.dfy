/** Usages, the nodes that show them in the popup's table, and the order
    in which `collectData` sorts those nodes (USAGE_NODE_COMPARATOR). */
module UsageNodes {
  import opened Outcomes
  import opened Psi

  /** A usage delivered by the host search. `offset` stands for the host's
      own order of two usages in one file (their compareTo, or their
      locations); for an adapter it is also the element's start offset. */
  datatype Usage =
    | Adapter(element: Option<Node>, file: Option<string>, offset: int)   // UsageInfo2UsageAdapter
    | OtherUsage(file: Option<string>, offset: int)                       // any other host usage
    | NullUsage                                                           // NullUsage.INSTANCE

  /** The usage that marks "more usages were found than are shown". */
  const MORE_USAGES_SEPARATOR: Usage := NullUsage

  /** A row of the popup: a usage node, or a StringNode showing a message
      (a StringNode's usage is NullUsage.INSTANCE). */
  datatype UsageNode = UsageNode(usage: Usage) | StringNode(text: string)

  /** The node of the separator usage (the usage view's NULL_NODE). */
  const MORE_USAGES_SEPARATOR_NODE: UsageNode := UsageNode(NullUsage)

  function UsageOf(n: UsageNode): Usage
  {
    if n.UsageNode? then n.usage else NullUsage
  }

  predicate IsSeparator(n: UsageNode)
  {
    n.UsageNode? && n.usage == MORE_USAGES_SEPARATOR
  }

  /** A node that shows a real usage: neither a message nor the separator. */
  predicate IsRealNode(n: UsageNode)
  {
    n.UsageNode? && !n.usage.NullUsage?
  }

  /** The sign of an `Int` or `Char` comparison. */
  function Sign(d: int): int
  {
    if d < 0 then -1 else if d > 0 then 1 else 0
  }

  /** The sign of String.compareTo: first differing character, else length. */
  function CompareStrings(a: string, b: string): (r: int)
    ensures r == 0 <==> a == b
  {
    if a == [] || b == [] then Sign(|a| - |b|)
    else if a[0] != b[0] then Sign(a[0] as int - b[0] as int)
    else
      var r := CompareStrings(a[1..], b[1..]);
      assert a == [a[0]] + a[1..] && b == [b[0]] + b[1..];
      r
  }

  lemma {:induction false} CompareStringsAntisymmetric(a: string, b: string)
    ensures CompareStrings(b, a) == -CompareStrings(a, b)
  {
    if a != [] && b != [] && a[0] == b[0] {
      CompareStringsAntisymmetric(a[1..], b[1..]);
    }
  }

  lemma {:induction false} CompareStringsTransitive(a: string, b: string, c: string)
    requires CompareStrings(a, b) <= 0 && CompareStrings(b, c) <= 0
    ensures CompareStrings(a, c) <= 0
  {
    if a != [] && b != [] && c != [] && a[0] == b[0] && b[0] == c[0] {
      CompareStringsTransitive(a[1..], b[1..], c[1..]);
    }
  }

  /** Comparing.compare on two nullable file names: null first. */
  function CompareFileNames(a: Option<string>, b: Option<string>): int
  {
    match (a, b)
    case (None, None) => 0
    case (None, Some(_)) => -1
    case (Some(_), None) => 1
    case (Some(x), Some(y)) => CompareStrings(x, y)
  }

  /** USAGE_NODE_COMPARATOR, as a sign. */
  function Compare(c1: UsageNode, c2: UsageNode): int
  {
    if c1.StringNode? then 1
    else if c2.StringNode? then -1
    else if c1.usage == MORE_USAGES_SEPARATOR then 1
    else if c2.usage == MORE_USAGES_SEPARATOR then -1
    else
      var i := CompareFileNames(c1.usage.file, c2.usage.file);
      if i != 0 then i else Sign(c1.usage.offset - c2.usage.offset)
  }

  /** Two nodes the comparator cannot order consistently: it answers "after"
      both ways for two StringNodes and for two separator nodes. */
  predicate Clash(x: UsageNode, y: UsageNode)
  {
    (x.StringNode? && y.StringNode?) || (IsSeparator(x) && IsSeparator(y))
  }

  /** The comparator breaks its contract only on clashing pairs. */
  lemma CompareAntisymmetric(x: UsageNode, y: UsageNode)
    ensures Clash(x, y) ==> Compare(x, y) == 1 && Compare(y, x) == 1
    ensures !Clash(x, y) ==> Compare(y, x) == -Compare(x, y)
  {
    if !Clash(x, y) && IsRealNode(x) && IsRealNode(y) {
      match (x.usage.file, y.usage.file)
      case (Some(a), Some(b)) => CompareStringsAntisymmetric(a, b);
      case _ =>
    }
  }

  /** Where a node goes in the sorted list: real usages, then the
      separator, then messages. */
  function Band(n: UsageNode): (b: nat)
    ensures b <= 2
  {
    if n.StringNode? then 2 else if IsSeparator(n) then 1 else 0
  }

  lemma CompareRespectsBand(x: UsageNode, y: UsageNode)
    ensures Compare(x, y) <= 0 ==> Band(x) <= Band(y)
  {
  }

  /** "Not after" is transitive: with antisymmetry on non-clashing pairs,
      the comparator is a total preorder on a coherent list. */
  lemma CompareTransitive(x: UsageNode, y: UsageNode, z: UsageNode)
    requires Compare(x, y) <= 0 && Compare(y, z) <= 0
    ensures Compare(x, z) <= 0
  {
    if IsRealNode(x) && IsRealNode(y) && IsRealNode(z) {
      var fx, fy, fz := x.usage.file, y.usage.file, z.usage.file;
      match (fx, fy, fz)
      case (Some(a), Some(b), Some(c)) =>
        CompareStringsTransitive(a, b, c);
        if CompareStrings(a, c) == 0 && a != b {
          CompareStringsAntisymmetric(b, c);
        }
      case _ =>
    }
  }

  /** No two elements of the list clash. */
  predicate Coherent(s: seq<UsageNode>)
  {
    forall i, j :: 0 <= i < j < |s| ==> !Clash(s[i], s[j])
  }

  predicate Sorted(s: seq<UsageNode>)
  {
    forall i :: 0 <= i < |s| - 1 ==> Compare(s[i], s[i + 1]) <= 0
  }

  /** Inserting `x` before the first element it does not compare after;
      `x` goes before equal elements, which keeps the sort stable. */
  function Insert(x: UsageNode, r: seq<UsageNode>): (out: seq<UsageNode>)
    ensures multiset(out) == multiset(r) + multiset{x}
    ensures |out| == |r| + 1
  {
    if r == [] || Compare(x, r[0]) <= 0 then [x] + r
    else
      assert r == [r[0]] + r[1..];
      [r[0]] + Insert(x, r[1..])
  }

  /** Collections.sort with USAGE_NODE_COMPARATOR: a stable sort. */
  function SortNodes(s: seq<UsageNode>): (r: seq<UsageNode>)
    ensures multiset(r) == multiset(s)
    ensures |r| == |s|
  {
    if s == [] then []
    else
      assert s == [s[0]] + s[1..];
      Insert(s[0], SortNodes(s[1..]))
  }

  lemma {:induction false} InsertSorted(x: UsageNode, r: seq<UsageNode>)
    requires Sorted(r)
    requires forall y :: y in r ==> !Clash(x, y)
    ensures Sorted(Insert(x, r))
    ensures |r| > 0 ==> Insert(x, r)[0] == x || Insert(x, r)[0] == r[0]
  {
    if r != [] && Compare(x, r[0]) > 0 {
      InsertSorted(x, r[1..]);
      CompareAntisymmetric(x, r[0]);
      var t := Insert(x, r[1..]);
      assert Insert(x, r) == [r[0]] + t;
      if |r| > 1 {
        assert t[0] == x || t[0] == r[1];
      }
    }
  }

  /** On a list without clashing pairs, the sort's result is ordered by
      the comparator and is a permutation of its input. */
  lemma {:induction false} SortNodesSorted(s: seq<UsageNode>)
    requires Coherent(s)
    ensures Sorted(SortNodes(s))
  {
    if s != [] {
      assert Coherent(s[1..]) by {
        forall i, j | 0 <= i < j < |s[1..]| ensures !Clash(s[1..][i], s[1..][j]) {
          assert s[1..][i] == s[i + 1] && s[1..][j] == s[j + 1];
        }
      }
      SortNodesSorted(s[1..]);
      forall y | y in SortNodes(s[1..]) ensures !Clash(s[0], y) {
        assert y in multiset(SortNodes(s[1..]));
        assert y in s[1..];
        var j :| 0 <= j < |s[1..]| && s[1..][j] == y;
        assert s[j + 1] == y;
      }
      InsertSorted(s[0], SortNodes(s[1..]));
    }
  }

  /** In a sorted list every element is not after any later one, not
      just its neighbour. */
  lemma {:induction false} SortedPairs(s: seq<UsageNode>, i: nat, j: nat)
    requires Sorted(s) && i < j < |s|
    ensures Compare(s[i], s[j]) <= 0
    decreases j - i
  {
    if i + 1 < j {
      SortedPairs(s, i + 1, j);
      CompareTransitive(s[i], s[i + 1], s[j]);
    }
  }

  /** In a sorted list the bands never go down. */
  lemma {:induction false} SortedBands(s: seq<UsageNode>, i: nat, j: nat)
    requires Sorted(s) && i <= j < |s|
    ensures Band(s[i]) <= Band(s[j])
    decreases j - i
  {
    if i < j {
      CompareRespectsBand(s[i], s[i + 1]);
      SortedBands(s, i + 1, j);
    }
  }
}
