/**
 * The rule that reports a private constructor of a class which no other
 * member of the same class delegates to with a `this(...)` statement.
 *
 * The class body (the OBJBLOCK node) is a sequence of members in declaration
 * order; a constructor is identified by its index in that sequence, which
 * plays the part of the syntax-tree node's reference identity.
 */
module UnusedPrivateConstructor {
  import opened Wrappers

  /** The token kind of a direct child of the class body. */
  datatype Kind = CtorDef | MethodDef | OtherDef

  /** A child of a member's MODIFIERS node. */
  datatype Modifier = LiteralPrivate | LiteralProtected | LiteralPublic | OtherModifier

  /** A direct child of a member's SLIST body. */
  datatype Stmt =
    | CtorCall(args: nat)        // `this(...)`; `args` counts the EXPR children of its ELIST
    | Instantiation(args: nat)   // an expression statement such as `new T(...)`
    | Block(stmts: seq<Stmt>)    // a nested block, conditional, loop or lambda body
    | OtherStmt

  /**
   * A member of the class body: its kind, the children of its MODIFIERS node,
   * the number of PARAMETER_DEF children of its PARAMETERS node, its line, and
   * the statements of its SLIST body if it has one.
   */
  datatype Member = Member(kind: Kind, modifiers: seq<Modifier>, params: nat, line: int, body: Option<seq<Stmt>>)

  /** A CLASS_DEF node, with its OBJBLOCK child if it has one. */
  datatype ClassDef = ClassDef(objblock: Option<seq<Member>>)

  /** One logged violation. */
  datatype Diagnostic = Diagnostic(line: int, message: string)

  const UnusedMessage: string := "Unused private constructor."

  // ---------------------------------------------------------------------------
  // Classification of members

  /** The number of LITERAL_PRIVATE children of a MODIFIERS node. */
  function PrivateCount(mods: seq<Modifier>): (n: nat)
    ensures n <= |mods|
    ensures n > 0 <==> LiteralPrivate in mods
  {
    if mods == [] then 0
    else (if mods[0] == LiteralPrivate then 1 else 0) + PrivateCount(mods[1..])
  }

  /** `PrivateCount` is the number of occurrences of `private`, as getChildCount returns. */
  lemma {:induction false} PrivateCountExact(mods: seq<Modifier>)
    ensures PrivateCount(mods) == multiset(mods)[LiteralPrivate]
  {
    if mods != [] {
      PrivateCountExact(mods[1..]);
      assert mods == [mods[0]] + mods[1..];
    }
  }

  predicate IsPrivate(m: Member)
    ensures IsPrivate(m) <==> LiteralPrivate in m.modifiers
  {
    PrivateCount(m.modifiers) > 0
  }

  predicate IsCtor(m: Member) { m.kind == CtorDef }

  predicate IsPrivateCtor(m: Member) { m.kind == CtorDef && IsPrivate(m) }

  /** The indices below `n` of the members satisfying `P`, in declaration order. */
  function Where(ms: seq<Member>, P: Member -> bool, n: nat): (r: seq<nat>)
    requires n <= |ms|
    ensures forall k :: 0 <= k < |r| ==> r[k] < n && P(ms[r[k]])
  {
    if n == 0 then [] else Where(ms, P, n - 1) + (if P(ms[n - 1]) then [n - 1] else [])
  }

  // ---------------------------------------------------------------------------
  // Matching a delegation call against a constructor

  predicate ParametersCountMatch(ncallparams: nat, nctorparams: nat)
  {
    ncallparams == nctorparams
  }

  predicate MatchesConstructorSignature(callexpr: Stmt, ctor: Member)
    requires callexpr.CtorCall?
  {
    ParametersCountMatch(callexpr.args, ctor.params)
  }

  predicate IsMatchingConstructorCall(stmt: Stmt, targetctor: Member)
    ensures IsMatchingConstructorCall(stmt, targetctor) <==> stmt == CtorCall(targetctor.params)
  {
    stmt.CtorCall? && MatchesConstructorSignature(stmt, targetctor)
  }

  /** Some top-level statement of the body of `m` is a matching `this(...)` call. */
  ghost predicate Calls(m: Member, targetctor: Member)
    ensures Calls(m, targetctor) <==> m.body.Some? && CtorCall(targetctor.params) in m.body.value
  {
    m.body.Some? &&
    exists i :: 0 <= i < |m.body.value| && IsMatchingConstructorCall(m.body.value[i], targetctor)
  }

  // ---------------------------------------------------------------------------
  // Usage and the expected report

  ghost predicate UsedInOtherCtors(ms: seq<Member>, p: nat)
    requires p < |ms|
  {
    exists j :: 0 <= j < |ms| && j != p && IsCtor(ms[j]) && Calls(ms[j], ms[p])
  }

  ghost predicate UsedInMethods(ms: seq<Member>, p: nat)
    requires p < |ms|
  {
    exists j :: 0 <= j < |ms| && ms[j].kind == MethodDef && Calls(ms[j], ms[p])
  }

  ghost predicate IsUsed(ms: seq<Member>, p: nat)
    requires p < |ms|
  {
    UsedInOtherCtors(ms, p) || UsedInMethods(ms, p)
  }

  /** The indices of `cs` that are not used, in the order of `cs`. */
  ghost function Unused(ms: seq<Member>, cs: seq<nat>): (r: seq<nat>)
    requires forall k :: 0 <= k < |cs| ==> cs[k] < |ms|
    ensures forall k :: 0 <= k < |r| ==> r[k] < |ms| && r[k] in cs && !IsUsed(ms, r[k])
  {
    if cs == [] then []
    else
      var last := cs[|cs| - 1];
      Unused(ms, cs[..|cs| - 1]) + (if IsUsed(ms, last) then [] else [last])
  }

  /** The private constructors that are not used, in declaration order. */
  ghost function UnusedPrivateCtors(ms: seq<Member>): seq<nat>
  {
    Unused(ms, Where(ms, IsPrivateCtor, |ms|))
  }

  /** One diagnostic at the line of each constructor of `u`, in the order of `u`. */
  ghost function Diagnose(ms: seq<Member>, u: seq<nat>): seq<Diagnostic>
    requires forall k :: 0 <= k < |u| ==> u[k] < |ms|
  {
    seq(|u|, k requires 0 <= k < |u| => Diagnostic(ms[u[k]].line, UnusedMessage))
  }

  /** What checking one class body logs. */
  ghost function Report(ms: seq<Member>): seq<Diagnostic>
  {
    Diagnose(ms, UnusedPrivateCtors(ms))
  }

  /** What visiting one CLASS_DEF node logs. */
  ghost function Check(ast: ClassDef): (r: seq<Diagnostic>)
    ensures ast.objblock.None? ==> r == []
    ensures forall k :: 0 <= k < |r| ==> r[k].message == UnusedMessage
    ensures ast.objblock.Some? ==> |r| <= |ast.objblock.value|
  {
    match ast.objblock
    case None => []
    case Some(ms) =>
      ReportExact(ms);
      Report(ms)
  }

  // ---------------------------------------------------------------------------
  // Properties of the specification

  /** `Where` lists exactly the members satisfying `P`, each once, in declaration order. */
  lemma {:induction false} WhereExact(ms: seq<Member>, P: Member -> bool, n: nat)
    requires n <= |ms|
    ensures forall a, b :: 0 <= a < b < |Where(ms, P, n)| ==> Where(ms, P, n)[a] < Where(ms, P, n)[b]
    ensures forall i :: 0 <= i < n ==> (i in Where(ms, P, n) <==> P(ms[i]))
  {
    if n > 0 {
      WhereExact(ms, P, n - 1);
    }
  }

  /** `Unused` keeps exactly the unused indices of `cs`, and keeps them in order. */
  lemma {:induction false} UnusedExact(ms: seq<Member>, cs: seq<nat>)
    requires forall k :: 0 <= k < |cs| ==> cs[k] < |ms|
    ensures forall i :: 0 <= i < |ms| ==> (i in Unused(ms, cs) <==> i in cs && !IsUsed(ms, i))
    ensures (forall a, b :: 0 <= a < b < |cs| ==> cs[a] < cs[b]) ==>
              forall a, b :: 0 <= a < b < |Unused(ms, cs)| ==> Unused(ms, cs)[a] < Unused(ms, cs)[b]
  {
    if cs != [] {
      var init := cs[..|cs| - 1];
      UnusedExact(ms, init);
      assert cs == init + [cs[|cs| - 1]];
    }
  }

  /**
   * The report holds exactly one diagnostic per unused private constructor,
   * at that constructor's line, in declaration order, and nothing else.
   */
  lemma ReportExact(ms: seq<Member>)
    ensures |Report(ms)| == |UnusedPrivateCtors(ms)| <= |ms|
    ensures forall a, b :: 0 <= a < b < |UnusedPrivateCtors(ms)| ==> UnusedPrivateCtors(ms)[a] < UnusedPrivateCtors(ms)[b]
    ensures forall i :: 0 <= i < |ms| ==>
              (i in UnusedPrivateCtors(ms) <==> IsPrivateCtor(ms[i]) && !IsUsed(ms, i))
    ensures forall k :: 0 <= k < |Report(ms)| ==>
              Report(ms)[k] == Diagnostic(ms[UnusedPrivateCtors(ms)[k]].line, UnusedMessage)
  {
    var prv := Where(ms, IsPrivateCtor, |ms|);
    WhereExact(ms, IsPrivateCtor, |ms|);
    UnusedExact(ms, prv);
    StrictlyIncreasingBound(UnusedPrivateCtors(ms), |ms|);
  }

  /** A strictly increasing sequence of indices below `n` has at most `n` elements. */
  lemma {:induction false} StrictlyIncreasingBound(s: seq<nat>, n: nat)
    requires forall k :: 0 <= k < |s| ==> s[k] < n
    requires forall a, b :: 0 <= a < b < |s| ==> s[a] < s[b]
    ensures |s| <= n
  {
    if s != [] {
      var init := s[..|s| - 1];
      StrictlyIncreasingBound(init, s[|s| - 1]);
    }
  }

  /** Methods, other members and non-private constructors are never reported. */
  lemma OnlyPrivateCtorsReported(ms: seq<Member>, i: nat)
    requires i < |ms| && !IsPrivateCtor(ms[i])
    ensures i !in UnusedPrivateCtors(ms)
  {
  }

  /** A constructor's own `this(...)` statements never count as a use of it. */
  lemma SelfCallIgnored(ms: seq<Member>, p: nat, body: Option<seq<Stmt>>)
    requires p < |ms| && IsCtor(ms[p])
    ensures IsUsed(ms[p := ms[p].(body := body)], p) <==> IsUsed(ms, p)
  {
    var ms' := ms[p := ms[p].(body := body)];
    assert forall j :: 0 <= j < |ms| && j != p ==> ms'[j] == ms[j];
    assert ms'[p].params == ms[p].params;
    if UsedInOtherCtors(ms, p) {
      var j :| 0 <= j < |ms| && j != p && IsCtor(ms[j]) && Calls(ms[j], ms[p]);
      assert IsCtor(ms'[j]) && Calls(ms'[j], ms'[p]);
    }
    if UsedInOtherCtors(ms', p) {
      var j :| 0 <= j < |ms'| && j != p && IsCtor(ms'[j]) && Calls(ms'[j], ms'[p]);
      assert IsCtor(ms[j]) && Calls(ms[j], ms[p]);
    }
    if UsedInMethods(ms, p) {
      var j :| 0 <= j < |ms| && ms[j].kind == MethodDef && Calls(ms[j], ms[p]);
      assert ms'[j].kind == MethodDef && Calls(ms'[j], ms'[p]);
    }
    if UsedInMethods(ms', p) {
      var j :| 0 <= j < |ms'| && ms'[j].kind == MethodDef && Calls(ms'[j], ms'[p]);
      assert ms[j].kind == MethodDef && Calls(ms[j], ms[p]);
    }
  }

  /**
   * Matching is by arity alone: one `this(...)` call in a member that is
   * neither of two same-arity constructors counts as a use of both.
   */
  lemma SharedArityUsage(ms: seq<Member>, j: nat, p: nat, q: nat)
    requires j < |ms| && p < |ms| && q < |ms|
    requires j != p && j != q && ms[j].kind != OtherDef
    requires ms[p].params == ms[q].params
    requires Calls(ms[j], ms[p])
    ensures IsUsed(ms, p) && IsUsed(ms, q)
  {
  }

  /**
   * Usage is decided by the other members' top-level `this(...)` calls of the
   * constructor's arity: used exactly when some constructor other than `p`,
   * or some method, has `this(...)` with `params` arguments among them.
   */
  lemma UsedIffDelegation(ms: seq<Member>, p: nat)
    requires p < |ms|
    ensures IsUsed(ms, p) <==>
              exists j :: 0 <= j < |ms| && ((j != p && IsCtor(ms[j])) || ms[j].kind == MethodDef) &&
                ms[j].body.Some? && CtorCall(ms[p].params) in ms[j].body.value
  {
  }

  // ---------------------------------------------------------------------------
  // The scans over the class body

  /** collectPrivateConstructors: the private constructors, in declaration order. */
  method CollectPrivateConstructors(objblock: seq<Member>) returns (prvctors: seq<nat>)
    ensures prvctors == Where(objblock, IsPrivateCtor, |objblock|)
  {
    prvctors := [];
    for child := 0 to |objblock|
      invariant prvctors == Where(objblock, IsPrivateCtor, child)
    {
      if objblock[child].kind == CtorDef && IsPrivate(objblock[child]) {
        prvctors := prvctors + [child];
      }
    }
  }

  /** collectAllConstructors: every constructor, in declaration order. */
  method CollectAllConstructors(objblock: seq<Member>) returns (allctors: seq<nat>)
    ensures allctors == Where(objblock, IsCtor, |objblock|)
  {
    allctors := [];
    for child := 0 to |objblock|
      invariant allctors == Where(objblock, IsCtor, child)
    {
      if objblock[child].kind == CtorDef {
        allctors := allctors + [child];
      }
    }
  }

  /** isCallingConstructor: scans the top-level statements until a match is found. */
  method IsCallingConstructor(methodorctor: Member, targetctor: Member) returns (result: bool)
    ensures result <==> Calls(methodorctor, targetctor)
  {
    result := false;
    if methodorctor.body.Some? {
      var body := methodorctor.body.value;
      var stmt := 0;
      while stmt < |body| && !result
        invariant 0 <= stmt <= |body|
        invariant result <==> exists i :: 0 <= i < stmt && IsMatchingConstructorCall(body[i], targetctor)
      {
        result := IsMatchingConstructorCall(body[stmt], targetctor);
        stmt := stmt + 1;
      }
    }
  }

  /** isPrivateCtorUsedInOtherCtors: `anyMatch` over every constructor but the candidate. */
  method IsPrivateCtorUsedInOtherCtors(privatector: nat, objblock: seq<Member>) returns (result: bool)
    requires privatector < |objblock|
    ensures result <==> UsedInOtherCtors(objblock, privatector)
  {
    var allctors := CollectAllConstructors(objblock);
    WhereExact(objblock, IsCtor, |objblock|);
    result := false;
    for k := 0 to |allctors|
      invariant forall k' :: 0 <= k' < k && allctors[k'] != privatector ==>
                  !Calls(objblock[allctors[k']], objblock[privatector])
    {
      var otherctor := allctors[k];
      if otherctor != privatector {
        var calling := IsCallingConstructor(objblock[otherctor], objblock[privatector]);
        if calling {
          result := true;
          break;
        }
      }
    }
    if !result {
      forall j | 0 <= j < |objblock| && j != privatector && IsCtor(objblock[j])
        ensures !Calls(objblock[j], objblock[privatector])
      {
        assert j in allctors;
      }
    }
  }

  /** isPrivateCtorUsedInMethods: stops at the first method that delegates to the candidate. */
  method IsPrivateCtorUsedInMethods(privatector: nat, objblock: seq<Member>) returns (result: bool)
    requires privatector < |objblock|
    ensures result <==> UsedInMethods(objblock, privatector)
  {
    result := false;
    for child := 0 to |objblock|
      invariant forall j :: 0 <= j < child && objblock[j].kind == MethodDef ==>
                  !Calls(objblock[j], objblock[privatector])
    {
      if objblock[child].kind == MethodDef {
        var calling := IsCallingConstructor(objblock[child], objblock[privatector]);
        if calling {
          result := true;
          break;
        }
      }
    }
  }

  /** isPrivateConstructorUsed: used by another constructor, or else by a method. */
  method IsPrivateConstructorUsed(privatector: nat, objblock: seq<Member>) returns (used: bool)
    requires privatector < |objblock|
    ensures used <==> IsUsed(objblock, privatector)
  {
    used := IsPrivateCtorUsedInOtherCtors(privatector, objblock);
    if !used {
      used := IsPrivateCtorUsedInMethods(privatector, objblock);
    }
  }

  /** Appending one diagnosed constructor appends one diagnostic. */
  lemma DiagnoseSnoc(ms: seq<Member>, u: seq<nat>, i: nat)
    requires forall k :: 0 <= k < |u| ==> u[k] < |ms|
    requires i < |ms|
    ensures Diagnose(ms, u + [i]) == Diagnose(ms, u) + [Diagnostic(ms[i].line, UnusedMessage)]
  {
  }

  /** Taking one more candidate adds its diagnostic exactly when it is not used. */
  lemma ReportStep(ms: seq<Member>, cs: seq<nat>, k: nat)
    requires forall j :: 0 <= j < |cs| ==> cs[j] < |ms|
    requires k < |cs|
    ensures Diagnose(ms, Unused(ms, cs[..k + 1])) ==
              Diagnose(ms, Unused(ms, cs[..k])) +
              (if IsUsed(ms, cs[k]) then [] else [Diagnostic(ms[cs[k]].line, UnusedMessage)])
  {
    assert cs[..k + 1][..k] == cs[..k];
    if !IsUsed(ms, cs[k]) {
      DiagnoseSnoc(ms, Unused(ms, cs[..k]), cs[k]);
    }
  }

  /**
   * The rule itself. `messages` is the list of violations the host framework
   * collects through `log`.
   */
  class ProhibitUnusedPrivateConstructorCheck {
    var messages: seq<Diagnostic>

    constructor ()
      ensures messages == []
    {
      messages := [];
    }

    /** AbstractCheck.log: records one violation at a line. */
    method Log(line: int, message: string)
      modifies this
      ensures messages == old(messages) + [Diagnostic(line, message)]
    {
      messages := messages + [Diagnostic(line, message)];
    }

    /** visitToken: checks the class body when the class has one. */
    method VisitToken(ast: ClassDef)
      modifies this
      ensures messages == old(messages) + Check(ast)
    {
      if ast.objblock.Some? {
        CheckConstructors(ast.objblock.value);
      }
    }

    /** checkConstructors: logs every private constructor that is not used. */
    method CheckConstructors(objblock: seq<Member>)
      modifies this
      ensures messages == old(messages) + Report(objblock)
    {
      var prvctors := CollectPrivateConstructors(objblock);
      for k := 0 to |prvctors|
        invariant messages == old(messages) + Diagnose(objblock, Unused(objblock, prvctors[..k]))
      {
        var ctor := prvctors[k];
        var used := IsPrivateConstructorUsed(ctor, objblock);
        ReportStep(objblock, prvctors, k);
        if !used {
          Log(objblock[ctor].line, UnusedMessage);
        }
      }
      assert prvctors[..|prvctors|] == prvctors;
    }
  }

  // ---------------------------------------------------------------------------
  // Worked examples

  function Ctor(mods: seq<Modifier>, params: nat, line: int, body: seq<Stmt>): Member
  {
    Member(CtorDef, mods, params, line, Some(body))
  }

  function Method(line: int, body: seq<Stmt>): Member
  {
    Member(MethodDef, [], 0, line, Some(body))
  }

  /** `class A { private A() {} }`: the only constructor is reported. */
  lemma ExampleLonePrivateCtor()
    ensures Check(ClassDef(Some([Ctor([LiteralPrivate], 0, 2, [])]))) ==
              [Diagnostic(2, UnusedMessage)]
  {
  }

  /** `class A { private A() {} A(int x) { this(); } }`: nothing is reported. */
  lemma ExampleCtorDelegation()
    ensures Check(ClassDef(Some([Ctor([LiteralPrivate], 0, 2, []), Ctor([], 1, 3, [CtorCall(0)])]))) == []
  {
    var ms := [Ctor([LiteralPrivate], 0, 2, []), Ctor([], 1, 3, [CtorCall(0)])];
    assert Calls(ms[1], ms[0]);
    assert IsUsed(ms, 0);
  }

  /** `class A { private A() {} void make() { this(); } }`: nothing is reported. */
  lemma ExampleMethodDelegation()
    ensures Check(ClassDef(Some([Ctor([LiteralPrivate], 0, 2, []), Method(3, [CtorCall(0)])]))) == []
  {
    var ms := [Ctor([LiteralPrivate], 0, 2, []), Method(3, [CtorCall(0)])];
    assert Calls(ms[1], ms[0]);
    assert IsUsed(ms, 0);
  }

  /**
   * `class A { private A() {} private A(int x) {} void make() { this(); } }`:
   * only the constructor of arity 1 is reported; the arity-0 one is used.
   */
  lemma ExampleArityOnly()
    ensures Check(ClassDef(Some([Ctor([LiteralPrivate], 0, 2, []), Ctor([LiteralPrivate], 1, 3, []), Method(4, [CtorCall(0)])]))) ==
              [Diagnostic(3, UnusedMessage)]
  {
    var ms := [Ctor([LiteralPrivate], 0, 2, []), Ctor([LiteralPrivate], 1, 3, []), Method(4, [CtorCall(0)])];
    assert Calls(ms[2], ms[0]);
    assert IsUsed(ms, 0);
    assert !IsUsed(ms, 1);
  }

  /**
   * Two private constructors of the same arity and one `this(...)` call of
   * that arity in a method: neither constructor is reported.
   */
  lemma ExampleSameArityBothSuppressed()
    ensures Check(ClassDef(Some([Ctor([LiteralPrivate], 1, 2, []), Ctor([LiteralPrivate], 1, 3, []), Method(4, [CtorCall(1)])]))) == []
  {
    var ms := [Ctor([LiteralPrivate], 1, 2, []), Ctor([LiteralPrivate], 1, 3, []), Method(4, [CtorCall(1)])];
    assert Calls(ms[2], ms[0]);
    SharedArityUsage(ms, 2, 0, 1);
  }

  /** `class A { private A() {} static A create() { return new A(); } }`: still reported. */
  lemma ExampleInstantiationIsNotUsage()
    ensures Check(ClassDef(Some([Ctor([LiteralPrivate], 0, 2, []), Method(3, [Instantiation(0)])]))) ==
              [Diagnostic(2, UnusedMessage)]
  {
    var ms := [Ctor([LiteralPrivate], 0, 2, []), Method(3, [Instantiation(0)])];
    assert !IsUsed(ms, 0);
  }
}
