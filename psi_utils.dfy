/** The stateless classifiers of PsiUtils.kt: which tree nodes are event
    bus receivers, posts, LiveData posts, and how a class type resolves. */
module PsiUtils {
  import opened Outcomes
  import opened Psi

  const SUBSCRIBE_ANNOTATION := "org.greenrobot.eventbus.Subscribe"
  const POST_EVENT := "postEvent"
  const LIVE_BUS_PROVIDER := "LiveBusProvider"
  const EVENT_BUS := "EventBus"

  /** The class a type resolves to: null for a type that is not a class
      type, and for a class type the host cannot resolve. */
  function GetClass(t: PsiType): (r: Option<Node>)
    ensures r.Some? <==> t.ClassType? && t.resolved.Some?
    ensures t.OtherType? ==> r == None
    ensures r.Some? ==> Some(r.value) == t.resolved
  {
    if t.ClassType? then t.resolved else None
  }

  /** One step of the annotation loop: `qualifiedName == SUBSCRIBE_ANNOTATION`. */
  function AnnotationIsSubscribe(qualifiedName: Option<string>): Outcome<bool>
  {
    Value(qualifiedName == Some(SUBSCRIBE_ANNOTATION))
  }

  /** A method carrying the event bus's `@Subscribe` annotation. */
  function IsEventBusReceiver(e: Node): bool
  {
    Method in e.kinds && Search(e.annotations, AnnotationIsSubscribe) == Value(true)
  }

  lemma IsEventBusReceiverIff(e: Node)
    ensures IsEventBusReceiver(e)
        <==> Method in e.kinds && Some(SUBSCRIBE_ANNOTATION) in e.annotations
  {
    SearchTotal(e.annotations, AnnotationIsSubscribe);
    if Some(SUBSCRIBE_ANNOTATION) in e.annotations {
      var i :| 0 <= i < |e.annotations| && e.annotations[i] == Some(SUBSCRIBE_ANNOTATION);
      assert AnnotationIsSubscribe(e.annotations[i]) == Value(true);
    }
  }

  /** `isEventBusClass`: the class is named LiveBusProvider; a name getter
      that throws is caught and counts as no. */
  function IsEventBusClass(c: Node): bool
  {
    NameIs(c.name, LIVE_BUS_PROVIDER) == Value(true)
  }

  /** One step of the supers loop; an exception from the name getter is
      caught, so the loop goes on with the next super. */
  function SuperIsEventBus(s: Node): Outcome<bool>
  {
    match NameIs(s.name, EVENT_BUS)
    case Value(b) => Value(b)
    case Raised(_) => Value(false)
  }

  /** `isSuperClassEventBus`: some direct super is named EventBus. */
  function IsSuperClassEventBus(c: Node): bool
  {
    if |c.supers| == 0 then false
    else Search(c.supers, SuperIsEventBus) == Value(true)
  }

  /** Only the direct supers are looked at, by name, and a super whose
      name cannot be read is skipped. */
  lemma IsSuperClassEventBusIff(c: Node)
    ensures IsSuperClassEventBus(c)
        <==> exists i :: 0 <= i < |c.supers| && c.supers[i].name == Named(EVENT_BUS)
  {
    SearchTotal(c.supers, SuperIsEventBus);
    if exists i :: 0 <= i < |c.supers| && c.supers[i].name == Named(EVENT_BUS) {
      var i :| 0 <= i < |c.supers| && c.supers[i].name == Named(EVENT_BUS);
      assert SuperIsEventBus(c.supers[i]) == Value(true);
    }
  }

  /** A super that is not itself named EventBus does not count, even when
      EventBus is one of its own supers. */
  lemma SuperOfSuperIgnored(c: Node)
    requires |c.supers| == 1 && c.supers[0].name != Named(EVENT_BUS)
    requires exists i :: 0 <= i < |c.supers[0].supers|
                        && c.supers[0].supers[i].name == Named(EVENT_BUS)
    ensures !IsSuperClassEventBus(c)
  {
    IsSuperClassEventBusIff(c);
  }

  /** `isEventBusPost`: a call that resolves to a method named postEvent
      declared directly in a class that is LiveBusProvider or has a direct
      super named EventBus. Reading the method's name is not guarded, so
      an exception there leaves the function. */
  function IsEventBusPost(e: Node): Outcome<bool>
  {
    if CallExpression !in e.kinds then Value(false)
    else match e.resolvedMethod
      case None => Value(false)
      case Some(m) =>
        if m.name.NameThrows? then Raised(HostFailure)
        else if m.name != NullName && m.name == Named(POST_EVENT) && IsA(m.parent, Class) then
          Value(IsEventBusClass(m.parent.value) || IsSuperClassEventBus(m.parent.value))
        else Value(false)
  }

  lemma IsEventBusPostIff(e: Node)
    ensures IsEventBusPost(e) == Value(true)
        <==> CallExpression in e.kinds && e.resolvedMethod.Some?
             && e.resolvedMethod.value.name == Named(POST_EVENT)
             && IsA(e.resolvedMethod.value.parent, Class)
             && var c := e.resolvedMethod.value.parent.value;
                (c.name == Named(LIVE_BUS_PROVIDER)
                 || exists i :: 0 <= i < |c.supers| && c.supers[i].name == Named(EVENT_BUS))
  {
    if e.resolvedMethod.Some? && e.resolvedMethod.value.parent.Some? {
      IsSuperClassEventBusIff(e.resolvedMethod.value.parent.value);
    }
  }

  /** The only exception that leaves `isEventBusPost` is the one from the
      resolved method's name getter. */
  lemma IsEventBusPostRaisesIff(e: Node)
    ensures IsEventBusPost(e).Raised?
        <==> CallExpression in e.kinds && e.resolvedMethod.Some?
             && e.resolvedMethod.value.name.NameThrows?
  {
  }

  /** `isLiveDataPost`: every Kotlin class node, whatever its name. */
  function IsLiveDataPost(e: Node): (r: bool)
    ensures r <==> KotlinClass in e.kinds
  {
    KotlinClass in e.kinds
  }
}
