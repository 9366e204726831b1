/** ReceiverFilter.shouldShow: keeps a usage that is the type of a
    parameter of an `@Subscribe` method. */
module ReceiverFilter {
  import opened Outcomes
  import opened Psi
  import opened UsageNodes
  import PsiUtils

  /** The method a type element declares a parameter of: the element is a
      code reference and a type element, under a parameter, under a
      parameter list, under a method. */
  function ParameterMethod(element: Option<Node>): (r: Option<Node>)
    ensures r.Some? ==> Method in r.value.kinds
  {
    if IsA(element, JavaCodeReference) && IsA(element, TypeElement)
       && IsA(element.value.parent, Parameter)
       && IsA(element.value.parent.value.parent, ParameterList)
       && IsA(element.value.parent.value.parent.value.parent, Method)
    then element.value.parent.value.parent.value.parent
    else None
  }

  /** No event class and no target: only the usage's element and its
      ancestors are looked at. A usage that is not an adapter makes the
      cast to UsageInfo2UsageAdapter throw. */
  function ShouldShow(usage: Usage): Outcome<bool>
  {
    if !usage.Adapter? then Raised(ClassCast)
    else
      var m := ParameterMethod(usage.element);
      Value(m.Some? && PsiUtils.IsEventBusReceiver(m.value))
  }

  lemma ShouldShowIff(usage: Usage)
    ensures !usage.Adapter? <==> ShouldShow(usage) == Raised(ClassCast)
    ensures ShouldShow(usage) == Value(true)
        <==> usage.Adapter? && usage.element.Some?
             && var e := usage.element.value;
                && JavaCodeReference in e.kinds && TypeElement in e.kinds
                && IsA(e.parent, Parameter)
                && IsA(e.parent.value.parent, ParameterList)
                && IsA(e.parent.value.parent.value.parent, Method)
                && Some(PsiUtils.SUBSCRIBE_ANNOTATION) in e.parent.value.parent.value.parent.value.annotations
  {
    if usage.Adapter? {
      var m := ParameterMethod(usage.element);
      if m.Some? {
        PsiUtils.IsEventBusReceiverIff(m.value);
      }
    }
  }

  /** Two adapters whose elements have the same kinds and the same parent
      chain get the same answer, whatever their file, offset or name. */
  lemma ShouldShowDependsOnlyOnAncestry(u1: Usage, u2: Usage)
    requires u1.Adapter? && u2.Adapter?
    requires u1.element.Some? <==> u2.element.Some?
    requires u1.element.Some? ==>
               u1.element.value.kinds == u2.element.value.kinds
               && u1.element.value.parent == u2.element.value.parent
    ensures ShouldShow(u1) == ShouldShow(u2)
  {
  }

  /** An element that is not both a code reference and a type element is
      always rejected; in the host those two interfaces are distinct, so
      only a node that implements both can pass. */
  lemma ShouldShowNeedsBothKinds(usage: Usage)
    requires usage.Adapter? && usage.element.Some?
    requires JavaCodeReference !in usage.element.value.kinds
             || TypeElement !in usage.element.value.kinds
    ensures ShouldShow(usage) == Value(false)
  {
  }
}
