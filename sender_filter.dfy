/** SenderFilter.shouldShow: keeps a usage of the event class when it is a
    reference whose parent is a method call posting an instance of that
    class. */
module SenderFilter {
  import opened Outcomes
  import opened Psi
  import opened UsageNodes
  import PsiUtils

  /** One step of the argument-type loop: the type's class must be named
      like the event class. `getClass(type)!!` throws on a type that is not
      a resolvable class type, and nothing catches it. */
  function ArgumentIsEvent(eventName: Name): PsiType -> Outcome<bool>
  {
    (t: PsiType) => match PsiUtils.GetClass(t)
         case None => Raised(NullPointer)
         case Some(c) => NameEquals(c.name, eventName)
  }

  /** One step of the declared-elements loop: a local variable whose type's
      class is named like the event class. The NullPointerException of
      `psiClass!!` is caught and the loop goes on. */
  function LocalVariableIsEvent(eventName: Name): Node -> Outcome<bool>
  {
    (v: Node) => if LocalVariable !in v.kinds then Value(false)
         else match PsiUtils.GetClass(v.variableType)
           case None => Value(false)
           case Some(c) => NameEquals(c.name, eventName)
  }

  /** One step of the block-statements loop. */
  function DeclaresEventVariable(eventName: Name): Node -> Outcome<bool>
  {
    (s: Node) => if DeclarationStatement !in s.kinds then Value(false)
         else Search(s.declaredElements, LocalVariableIsEvent(eventName))
  }

  /** The usage's element, or the ClassCastException of the cast to
      UsageInfo2UsageAdapter. */
  function AdapterElement(usage: Usage): (r: Outcome<Option<Node>>)
    ensures r.Raised? <==> !usage.Adapter?
  {
    if usage.Adapter? then Value(usage.element) else Raised(ClassCast)
  }

  /** The "declared earlier in the same block" pattern, reached when no
      argument type matched. */
  function DeclaredInBlock(call: Node, eventName: Name): Outcome<bool>
  {
    if ExpressionStatement in call.kinds && IsA(call.parent, CodeBlock) then
      Search(call.parent.value.statements, DeclaresEventVariable(eventName))
    else Value(false)
  }

  function ShouldShow(eventClass: Node, usage: Usage): Outcome<bool>
  {
    match AdapterElement(usage)
    case Raised(e) => Raised(e)
    case Value(element) =>
      if !IsA(element, ReferenceExpression) || !IsA(element.value.parent, MethodCallExpression) then
        Value(false)
      else
        var call := element.value.parent.value;
        match Search(call.argumentTypes, ArgumentIsEvent(eventClass.name))
        case Raised(e) => Raised(e)
        case Value(true) => Value(true)
        case Value(false) => DeclaredInBlock(call, eventClass.name)
  }

  /** The call a usage's element is an argument of, when the filter looks
      at it at all. */
  predicate IsCallReference(usage: Usage)
  {
    usage.Adapter? && IsA(usage.element, ReferenceExpression)
    && IsA(usage.element.value.parent, MethodCallExpression)
  }

  /** Anything but a reference whose parent is a method call is rejected;
      a usage that is not an adapter makes the cast throw. */
  lemma ShouldShowOnlyCallReferences(eventClass: Node, usage: Usage)
    ensures !usage.Adapter? ==> ShouldShow(eventClass, usage) == Raised(ClassCast)
    ensures usage.Adapter? && !IsCallReference(usage) ==> ShouldShow(eventClass, usage) == Value(false)
  {
  }

  /** The event class is compared by name only: two classes with equal
      names are indistinguishable to the filter. */
  lemma ShouldShowComparesNames(c1: Node, c2: Node, usage: Usage)
    requires c1.name == c2.name
    ensures ShouldShow(c1, usage) == ShouldShow(c2, usage)
  {
  }

  /** An argument type that does not resolve to a class, met before any
      matching argument, makes `!!` throw out of the filter. */
  lemma UnresolvedArgumentThrows(eventClass: Node, usage: Usage, k: nat)
    requires IsCallReference(usage)
    requires var call := usage.element.value.parent.value;
             k < |call.argumentTypes| && PsiUtils.GetClass(call.argumentTypes[k]).None?
             && forall j :: 0 <= j < k ==> ArgumentIsEvent(eventClass.name)(call.argumentTypes[j]) == Value(false)
    ensures ShouldShow(eventClass, usage) == Raised(NullPointer)
  {
    var call := usage.element.value.parent.value;
    SearchRaised(call.argumentTypes, ArgumentIsEvent(eventClass.name), NullPointer);
  }

  /** Since a method call is never an expression statement in the host, the
      block pattern is unreachable: the filter accepts exactly when some
      argument's class is named like the event class and every argument
      before it resolves to a differently named class. */
  lemma ShouldShowDirectArgumentOnly(eventClass: Node, usage: Usage)
    requires IsCallReference(usage)
    requires ExpressionIsNotStatement(usage.element.value.parent.value)
    ensures var call := usage.element.value.parent.value;
            var test := ArgumentIsEvent(eventClass.name);
            ShouldShow(eventClass, usage) == Value(true)
            <==> exists i :: 0 <= i < |call.argumentTypes|
                   && test(call.argumentTypes[i]) == Value(true)
                   && forall j :: 0 <= j < i ==> test(call.argumentTypes[j]) == Value(false)
  {
    var call := usage.element.value.parent.value;
    SearchTrue(call.argumentTypes, ArgumentIsEvent(eventClass.name));
  }

  /** A matching argument, met before any argument that throws, is
      accepted: `post(new Event())` is shown for the class Event, and so is
      `post(e)` for a local `e` of type Event. */
  lemma ShouldShowAcceptsEventArgument(eventClass: Node, usage: Usage, k: nat)
    requires IsCallReference(usage)
    requires var call := usage.element.value.parent.value;
             k < |call.argumentTypes| && call.argumentTypes[k].ClassType?
             && call.argumentTypes[k].resolved.Some?
             && call.argumentTypes[k].resolved.value.name == eventClass.name
             && !eventClass.name.NameThrows?
             && forall j :: 0 <= j < k ==> ArgumentIsEvent(eventClass.name)(call.argumentTypes[j]) == Value(false)
    ensures ShouldShow(eventClass, usage) == Value(true)
  {
    var call := usage.element.value.parent.value;
    SearchTrue(call.argumentTypes, ArgumentIsEvent(eventClass.name));
    assert ArgumentIsEvent(eventClass.name)(call.argumentTypes[k]) == Value(true);
  }

  /** Were the block pattern reached, it would accept any local variable of
      a matching class declared anywhere in the block, whether or not the
      call passes it: no argument needs to refer to the variable. */
  lemma BlockPatternIgnoresCallArguments(eventClass: Node, usage: Usage, s: nat, v: nat)
    requires IsCallReference(usage)
    requires var call := usage.element.value.parent.value;
             && (forall j :: 0 <= j < |call.argumentTypes| ==>
                   ArgumentIsEvent(eventClass.name)(call.argumentTypes[j]) == Value(false))
             && ExpressionStatement in call.kinds && IsA(call.parent, CodeBlock)
             && var block := call.parent.value;
                && s < |block.statements|
                && (forall j :: 0 <= j < s ==>
                      DeclaresEventVariable(eventClass.name)(block.statements[j]) == Value(false))
                && DeclarationStatement in block.statements[s].kinds
                && var declared := block.statements[s].declaredElements;
                   && v < |declared| && LocalVariable in declared[v].kinds
                   && PsiUtils.GetClass(declared[v].variableType).Some?
                   && PsiUtils.GetClass(declared[v].variableType).value.name == eventClass.name
                   && !eventClass.name.NameThrows?
                   && (forall j :: 0 <= j < v ==>
                         LocalVariableIsEvent(eventClass.name)(declared[j]) == Value(false))
    ensures ShouldShow(eventClass, usage) == Value(true)
  {
    var call := usage.element.value.parent.value;
    var block := call.parent.value;
    var name := eventClass.name;
    SearchFalse(call.argumentTypes, ArgumentIsEvent(name));
    var declared := block.statements[s].declaredElements;
    SearchTrue(declared, LocalVariableIsEvent(name));
    assert LocalVariableIsEvent(name)(declared[v]) == Value(true);
    assert DeclaresEventVariable(name)(block.statements[s]) == Value(true);
    SearchTrue(block.statements, DeclaresEventVariable(name));
  }
}
