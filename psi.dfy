/** The host IDE's program-structure tree, seen only through the accessors
    that the plugin's classifiers and filters call. A node's interface
    types are a set of tags, so that a Kotlin `is` test is a membership
    test and one node may pass several of them. */
module Psi {
  import opened Outcomes

  /** The host interfaces that the plugin tests for with `is`. */
  datatype Kind =
    | Method                 // PsiMethod
    | Class                  // PsiClass
    | CallExpression         // PsiCallExpression
    | MethodCallExpression   // PsiMethodCallExpression
    | ReferenceExpression    // PsiReferenceExpression
    | JavaCodeReference      // PsiJavaCodeReferenceElement
    | TypeElement            // PsiTypeElement
    | Parameter              // PsiParameter
    | ParameterList          // PsiParameterList
    | ExpressionStatement    // PsiExpressionStatement
    | CodeBlock              // PsiCodeBlock
    | DeclarationStatement   // PsiDeclarationStatement
    | LocalVariable          // PsiLocalVariable
    | KotlinClass            // KtClass

  /** What a `name` getter gives: a string, null, or an exception. */
  datatype Name = Named(text: string) | NullName | NameThrows

  /** A host type: a class type, whose `resolve()` may give null, or any
      other type (primitive, array, ...). */
  datatype PsiType = ClassType(resolved: Option<Node>) | OtherType

  /** A tree node with every accessor the plugin reads; an accessor that
      does not apply to the node's kinds is simply never read. */
  datatype Node = Node(
    kinds: set<Kind>,
    name: Name,
    parent: Option<Node>,
    annotations: seq<Option<string>>,   // qualified names of the modifier list's annotations
    argumentTypes: seq<PsiType>,        // a call's argumentList.expressionTypes
    statements: seq<Node>,              // a code block's statements
    declaredElements: seq<Node>,        // a declaration statement's declared elements
    variableType: PsiType,              // a local variable's typeElement.type
    resolvedMethod: Option<Node>,       // a call's resolveMethod()
    supers: seq<Node>                   // a class's direct supers
  )

  /** Kotlin's `a == b` on two `String?` values read from name getters:
      the left getter runs first, and two nulls are equal. */
  function NameEquals(a: Name, b: Name): (r: Outcome<bool>)
    ensures r.Raised? <==> a.NameThrows? || b.NameThrows?
    ensures r == Value(true) <==> !a.NameThrows? && a == b
  {
    if a.NameThrows? || b.NameThrows? then Raised(HostFailure)
    else Value(a == b)
  }

  /** Kotlin's `name == "literal"` on a name getter. */
  function NameIs(a: Name, literal: string): (r: Outcome<bool>)
    ensures r.Raised? <==> a.NameThrows?
    ensures r == Value(true) <==> a == Named(literal)
  {
    if a.NameThrows? then Raised(HostFailure) else Value(a == Named(literal))
  }

  /** `x is K` on a nullable node. */
  predicate IsA(n: Option<Node>, k: Kind)
  {
    n.Some? && k in n.value.kinds
  }

  /** A property of the host's class hierarchy that some lemmas rely on:
      an expression is never a statement. */
  predicate ExpressionIsNotStatement(n: Node)
  {
    !(MethodCallExpression in n.kinds && ExpressionStatement in n.kinds)
  }
}
