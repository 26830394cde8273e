# Unused private constructors and required Javadoc tags, modelled in Dafny

This project models two Checkstyle rules of the qulice code-quality suite.

**ProhibitUnusedPrivateConstructorCheck** runs once per class declaration (a
`CLASS_DEF` node). It lists the private constructors that are direct children of
the class body (`OBJBLOCK`), in declaration order. For each one it decides
whether the constructor is used. A constructor counts as used when another
constructor, or any method, has a top-level `this(...)` statement (`CTOR_CALL`)
whose argument count equals that constructor's parameter count. For each unused
one it logs `"Unused private constructor."` at the constructor's line.

**RequiredJavaDocTag** scans lines `start..end` of a Javadoc comment and stops
at the first line on which the tag pattern finds the tag. If no line has it, the
rule reports a missing tag at `start + 1`. If the tag's text fails the content
pattern, it reports a mismatch at `pos + 1`.

Files:

- `wrappers.dfy`: `Option`, standing for Java's nullable references.
- `unused_private_constructor.dfy` (module `UnusedPrivateConstructor`): the class
  body as a `seq<Member>` and a constructor's identity as its index in it. The
  specification is a function (`Report`). The sibling-chain scans are methods with
  loops proved against it. The rule is a class whose `messages` field is the list
  that `log` appends to.
- `required_javadoc_tag.dfy` (module `JavadocTag`): the regular expressions are
  abstract inputs. The first-match search is a function (`FindTag`) and the
  outcome is a function (`Expected`). `matchTagFormat` is a method over an
  `array<string>`, with its local `found` map, that writes to a `Reporter` object.

Java `int` arithmetic on the reported line (`start + 1`, `pos + 1`) is modelled
with 32-bit wrap-around (`JavadocTag.Inc`). `Character.isWhitespace` is written
out concretely (`JavadocTag.IsWhitespace`).

## Model

| member | source | states |
|---|---|---|
| `UnusedPrivateConstructor.PrivateCount` | qulice-checkstyle/src/main/java/com/qulice/checkstyle/ProhibitUnusedPrivateConstructorCheck.java:141-144 | The count of `LITERAL_PRIVATE` modifiers is positive exactly when one is present, and never exceeds the number of modifiers |
| `UnusedPrivateConstructor.PrivateCountExact` | qulice-checkstyle/src/main/java/com/qulice/checkstyle/ProhibitUnusedPrivateConstructorCheck.java:143 | The count is the number of occurrences of `private` among the modifiers, which is what `getChildCount(LITERAL_PRIVATE)` returns |
| `UnusedPrivateConstructor.IsPrivate` | qulice-checkstyle/src/main/java/com/qulice/checkstyle/ProhibitUnusedPrivateConstructorCheck.java:141-144 | A member is private exactly when its modifiers contain `private` |
| `UnusedPrivateConstructor.ParametersCountMatch` | qulice-checkstyle/src/main/java/com/qulice/checkstyle/ProhibitUnusedPrivateConstructorCheck.java:175-180 | The `EXPR` count of the call equals the `PARAMETER_DEF` count of the constructor; its meaning for a statement is stated by the `IsMatchingConstructorCall` ensures |
| `UnusedPrivateConstructor.MatchesConstructorSignature` | qulice-checkstyle/src/main/java/com/qulice/checkstyle/ProhibitUnusedPrivateConstructorCheck.java:168-173 | A `this(...)` call fits a constructor when the two counts match; characterised by the `IsMatchingConstructorCall` ensures |
| `UnusedPrivateConstructor.IsMatchingConstructorCall` | qulice-checkstyle/src/main/java/com/qulice/checkstyle/ProhibitUnusedPrivateConstructorCheck.java:160-180 | A statement matches a constructor exactly when it is a `this(...)` call whose argument count is that constructor's parameter count; arity is all that is compared |
| `UnusedPrivateConstructor.Calls` | qulice-checkstyle/src/main/java/com/qulice/checkstyle/ProhibitUnusedPrivateConstructorCheck.java:146-158 | A member calls a constructor exactly when it has a body and `this(...)` of that arity is one of the body's top-level statements; nested blocks, `new T(...)` and bodiless members never count |
| `UnusedPrivateConstructor.Where` | qulice-checkstyle/src/main/java/com/qulice/checkstyle/ProhibitUnusedPrivateConstructorCheck.java:50-59 | Every index collected by a sibling scan is in range and selects a member of the wanted kind |
| `UnusedPrivateConstructor.WhereExact` | qulice-checkstyle/src/main/java/com/qulice/checkstyle/ProhibitUnusedPrivateConstructorCheck.java:122-131 | A sibling scan collects exactly the members of the wanted kind, each once, in declaration order |
| `UnusedPrivateConstructor.Unused` | qulice-checkstyle/src/main/java/com/qulice/checkstyle/ProhibitUnusedPrivateConstructorCheck.java:189-194 | Each constructor kept by the report loop is one of the candidates and is not used |
| `UnusedPrivateConstructor.UnusedExact` | qulice-checkstyle/src/main/java/com/qulice/checkstyle/ProhibitUnusedPrivateConstructorCheck.java:189-194 | The report loop keeps exactly the unused candidates and keeps their order |
| `UnusedPrivateConstructor.Check` | qulice-checkstyle/src/main/java/com/qulice/checkstyle/ProhibitUnusedPrivateConstructorCheck.java:37-42 | A class without an `OBJBLOCK` logs nothing; every logged message is "Unused private constructor."; there are at most as many diagnostics as members |
| `UnusedPrivateConstructor.ReportExact` | qulice-checkstyle/src/main/java/com/qulice/checkstyle/ProhibitUnusedPrivateConstructorCheck.java:188-195 | The log holds exactly one diagnostic per private constructor that is not used, at its own line, in declaration order, and no other diagnostic |
| `UnusedPrivateConstructor.OnlyPrivateCtorsReported` | qulice-checkstyle/src/main/java/com/qulice/checkstyle/ProhibitUnusedPrivateConstructorCheck.java:50-59 | Methods, other members and non-private constructors are never reported, whatever the usage |
| `UnusedPrivateConstructor.SelfCallIgnored` | qulice-checkstyle/src/main/java/com/qulice/checkstyle/ProhibitUnusedPrivateConstructorCheck.java:83-92 | Replacing a constructor's own body does not change whether it is used, so its own `this(...)` never counts as a use of itself |
| `UnusedPrivateConstructor.SharedArityUsage` | qulice-checkstyle/src/main/java/com/qulice/checkstyle/ProhibitUnusedPrivateConstructorCheck.java:168-180 | One `this(...)` call in a third member makes every constructor of that arity used |
| `UnusedPrivateConstructor.UsedIffDelegation` | qulice-checkstyle/src/main/java/com/qulice/checkstyle/ProhibitUnusedPrivateConstructorCheck.java:68-114 | A constructor is used exactly when some other constructor, or some method, has a top-level `this(...)` of its arity |
| `UnusedPrivateConstructor.CollectPrivateConstructors` | qulice-checkstyle/src/main/java/com/qulice/checkstyle/ProhibitUnusedPrivateConstructorCheck.java:50-59 | The loop over the sibling chain returns the private constructors in declaration order (by `WhereExact`: exactly them, each once) |
| `UnusedPrivateConstructor.CollectAllConstructors` | qulice-checkstyle/src/main/java/com/qulice/checkstyle/ProhibitUnusedPrivateConstructorCheck.java:122-131 | The loop returns every constructor, in declaration order |
| `UnusedPrivateConstructor.IsCallingConstructor` | qulice-checkstyle/src/main/java/com/qulice/checkstyle/ProhibitUnusedPrivateConstructorCheck.java:146-158 | The statement loop, which stops at the first match, answers true exactly when the member calls the target constructor |
| `UnusedPrivateConstructor.IsPrivateCtorUsedInOtherCtors` | qulice-checkstyle/src/main/java/com/qulice/checkstyle/ProhibitUnusedPrivateConstructorCheck.java:83-92 | True exactly when a constructor other than the candidate calls it |
| `UnusedPrivateConstructor.IsPrivateCtorUsedInMethods` | qulice-checkstyle/src/main/java/com/qulice/checkstyle/ProhibitUnusedPrivateConstructorCheck.java:101-114 | The loop with early exit answers true exactly when some method calls the candidate |
| `UnusedPrivateConstructor.IsPrivateConstructorUsed` | qulice-checkstyle/src/main/java/com/qulice/checkstyle/ProhibitUnusedPrivateConstructorCheck.java:68-74 | True exactly when the candidate is used by another constructor or by a method |
| `UnusedPrivateConstructor.ProhibitUnusedPrivateConstructorCheck.Log` | qulice-checkstyle/src/main/java/com/qulice/checkstyle/ProhibitUnusedPrivateConstructorCheck.java:192 | Logging appends one diagnostic with the given line and message |
| `UnusedPrivateConstructor.ProhibitUnusedPrivateConstructorCheck.VisitToken` | qulice-checkstyle/src/main/java/com/qulice/checkstyle/ProhibitUnusedPrivateConstructorCheck.java:37-42 | Visiting a class appends exactly `Check(ast)`, a function of the tree alone; so two runs on the same tree log the same sequence |
| `UnusedPrivateConstructor.ProhibitUnusedPrivateConstructorCheck.CheckConstructors` | qulice-checkstyle/src/main/java/com/qulice/checkstyle/ProhibitUnusedPrivateConstructorCheck.java:188-195 | The loop over the private constructors appends exactly `Report(objblock)`, which `ReportExact` characterises |
| `UnusedPrivateConstructor.ExampleLonePrivateCtor` | qulice-checkstyle/src/main/java/com/qulice/checkstyle/ProhibitUnusedPrivateConstructorCheck.java:188-195 | `class A { private A() {} }` logs one diagnostic at the constructor's line |
| `UnusedPrivateConstructor.ExampleCtorDelegation` | qulice-checkstyle/src/main/java/com/qulice/checkstyle/ProhibitUnusedPrivateConstructorCheck.java:83-92 | `this()` in another constructor suppresses the report for `private A()` |
| `UnusedPrivateConstructor.ExampleMethodDelegation` | qulice-checkstyle/src/main/java/com/qulice/checkstyle/ProhibitUnusedPrivateConstructorCheck.java:101-114 | `this()` as a statement of a method suppresses the report for `private A()` |
| `UnusedPrivateConstructor.ExampleArityOnly` | qulice-checkstyle/src/main/java/com/qulice/checkstyle/ProhibitUnusedPrivateConstructorCheck.java:168-180 | `this()` makes only the zero-parameter constructor used; the one-parameter private constructor is still reported |
| `UnusedPrivateConstructor.ExampleSameArityBothSuppressed` | qulice-checkstyle/src/main/java/com/qulice/checkstyle/ProhibitUnusedPrivateConstructorCheck.java:175-180 | Two private constructors of the same arity and one matching call: neither is reported |
| `UnusedPrivateConstructor.ExampleInstantiationIsNotUsage` | qulice-checkstyle/src/main/java/com/qulice/checkstyle/ProhibitUnusedPrivateConstructorCheck.java:160-166 | A private constructor reached only through `new A()` in a factory method is still reported |
| `JavadocTag.Inc` | qulice-checkstyle/src/main/java/com/qulice/checkstyle/RequiredJavaDocTag.java:125-126 | The result is congruent to `x + 1` modulo 2^32 and stays in the `int` range (Java `int` addition) |
| `JavadocTag.IsWhitespace` | qulice-checkstyle/src/main/java/com/qulice/checkstyle/RequiredJavaDocTag.java:161 | `Character.isWhitespace`: the space, line and paragraph separators other than U+00A0, U+2007 and U+202F, plus U+0009..U+000D and U+001C..U+001F |
| `JavadocTag.AllWhitespace` | qulice-checkstyle/src/main/java/com/qulice/checkstyle/RequiredJavaDocTag.java:161 | True exactly when every character is whitespace |
| `JavadocTag.Empty` | qulice-checkstyle/src/main/java/com/qulice/checkstyle/RequiredJavaDocTag.java:160-162 | True exactly when the string is null or every character is whitespace; so the empty string is empty |
| `JavadocTag.TagFound` | qulice-checkstyle/src/main/java/com/qulice/checkstyle/RequiredJavaDocTag.java:149-153 | True exactly when the line fully matches and both the `name` and `cont` groups are present and hold a non-whitespace character |
| `JavadocTag.FindTag` | qulice-checkstyle/src/main/java/com/qulice/checkstyle/RequiredJavaDocTag.java:115-123 | The search returns the smallest line of `start..end` on which the tag is found, or nothing when no line in that range has it |
| `JavadocTag.ExpectedCases` | qulice-checkstyle/src/main/java/com/qulice/checkstyle/RequiredJavaDocTag.java:115-141 | At most one entry per call. There is exactly one "Missing" entry at `start + 1` carrying the tag name iff no line of the range has the tag, which includes `start > end`. For the first line `pos` with the tag, there is one mismatch entry at `pos + 1` carrying the text and pattern when the content is rejected, and nothing when it is accepted |
| `JavadocTag.Reporter.Log` | qulice-checkstyle/src/main/java/com/qulice/checkstyle/RequiredJavaDocTag.java:169-179 | Logging appends one entry with the given line, template and arguments |
| `JavadocTag.RequiredJavaDocTag.constructor` | qulice-checkstyle/src/main/java/com/qulice/checkstyle/RequiredJavaDocTag.java:92-102 | The four fields hold the given name, tag pattern, content pattern and reporter |
| `JavadocTag.RequiredJavaDocTag.MatchTagFormat` | qulice-checkstyle/src/main/java/com/qulice/checkstyle/RequiredJavaDocTag.java:110-142 | The search loop, with its `found` map, and the loop over `found` together append exactly `Expected(...)` to the reporter, which `ExpectedCases` characterises |

## Left out

- Token registration (`getDefaultTokens`, `getAcceptableTokens`, `getRequiredTokens`) and the host tree walker. `VisitToken` is called directly with a `CLASS_DEF` node.
- `DetailAST` navigation (`findFirstToken`, `getFirstChild`, `getNextSibling`, `getChildCount`). It is replaced by the `Member` and `Stmt` datatypes, whose fields hold the counts the source reads from child nodes.
- The `NullPointerException` raised when a member has no `MODIFIERS`, or a call or constructor has no `ELIST` or `PARAMETERS` node. The code throws there; the model assumes every member has a modifier list and both counts.
- `isPrivateCtorUsedInOtherCtors` is a stream `anyMatch`. It becomes a loop with early exit, because its predicate calls the statement-scanning method and a Dafny function cannot call a method.
- The three-argument `RequiredJavaDocTag` constructor, which builds the tag pattern with `String.format` and `Pattern.compile`. `java.util.regex` is a foreign library, so both patterns are abstract inputs.
- The `IllegalArgumentException` that `matcher.group("name")` and `matcher.group("cont")` raise when a tag pattern given to the four-argument constructor has no group of that name. The abstract tag pattern always yields both groups (each possibly absent from the match).
- `java.text.MessageFormat` formatting. Entries keep the message template and its arguments.
- `HashMap` iteration order in `matchTagFormat`. The map never holds more than one entry, so the order cannot be observed.
- `JavadocTag.IsWhitespace` follows Unicode 6.3 and later, where U+180E is not a space separator. Java 8 used Unicode 6.2 and treated U+180E as whitespace.
- `JavadocTag.RequiredJavaDocTag.MatchTagFormat` requires every index in `start..end` to lie inside the array. The source reads only the lines up to the first one with the tag, and raises `ArrayIndexOutOfBoundsException` only when one of those lies outside. The model excludes every out-of-range range rather than modelling the exception.
