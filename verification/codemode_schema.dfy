/** Output schemas for Code Mode (internal/mcp/codemode_schema.go): the scan that rejects deeply nested text before it is
  parsed, the schema inferred from a value, and its rendering as a TypeScript type. */
module CodeModeSchema {
  import opened Common
  import opened JsonValues
  import Text

  const MAX_SCHEMA_DEPTH := 3
  const MAX_PROPERTIES := 64
  const MAX_PROP_TYPE_LEN := 500
  const MAX_RENDER_DEPTH := 10

  // ---------------------------------------------------------------------------------------------------
  // The scan
  // ---------------------------------------------------------------------------------------------------

  predicate Opens(c: char) {
    c == '[' || c == '{'
  }

  predicate Closes(c: char) {
    c == ']' || c == '}'
  }

  function Step(depth: nat, c: char): nat {
    if Opens(c) then depth + 1 else if Closes(c) && depth > 0 then depth - 1 else depth
  }

  /** The running depth after a text. */
  function DepthAfter(raw: string, depth: nat): nat {
    if raw == [] then depth else Step(DepthAfter(Front(raw), depth), Last(raw))
  }

  predicate Exceeds(raw: string, depth: nat, limit: nat) {
    exists i :: 0 <= i <= |raw| && DepthAfter(raw[..i], depth) > limit
  }

  method ExceedsMaxDepth(raw: string, limit: nat) returns (exceeds: bool)
    ensures exceeds <==> Exceeds(raw, 0, limit)
  {
    var depth := 0;
    for n := 0 to |raw|
      invariant depth == DepthAfter(raw[..n], 0)
      invariant forall i :: 0 <= i <= n ==> DepthAfter(raw[..i], 0) <= limit
    {
      assert Front(raw[..n + 1]) == raw[..n];
      if raw[n] == '[' || raw[n] == '{' {
        depth := depth + 1;
        if depth > limit {
          return true;
        }
      } else if raw[n] == ']' || raw[n] == '}' {
        if depth > 0 {
          depth := depth - 1;
        }
      }
    }
    return false;
  }

  /** JSON text as it is laid out: a scalar, or a bracket with its members. What stands before a member (a comma, a key,
      blanks) and before the closing bracket is text. */
  datatype Tree =
    | Scalar(text: string)
    | Node(open: char, members: seq<Member>, tail: string)

  datatype Member = Member(before: string, child: Tree)

  function Print(t: Tree): string
    decreases t, 1
  {
    match t
    case Scalar(text) => text
    case Node(open, members, tail) => [open] + PrintMembers(t, |members|) + tail + [if open == '[' then ']' else '}']
  }

  function PrintMembers(t: Tree, n: nat): string
    requires t.Node? && n <= |t.members|
    decreases t, 0, n
  {
    if n == 0 then []
    else PrintMembers(t, n - 1) + t.members[n - 1].before + Print(t.members[n - 1].child)
  }

  predicate Plain(text: string) {
    forall c :: c in text ==> c != '[' && c != ']' && c != '{' && c != '}'
  }

  /** No key and no string of the tree holds a bracket. */
  predicate BracketFree(t: Tree) {
    match t
    case Scalar(text) => Plain(text)
    case Node(open, members, tail) =>
      && (open == '[' || open == '{') && Plain(tail)
      && forall i :: 0 <= i < |members| ==> Plain(members[i].before) && BracketFree(members[i].child)
  }

  /** How deep the tree nests. */
  function Nesting(t: Tree): nat
    decreases t, 1
  {
    match t
    case Scalar(_) => 0
    case Node(_, members, _) => 1 + MembersNesting(t, |members|)
  }

  function MembersNesting(t: Tree, n: nat): nat
    requires t.Node? && n <= |t.members|
    decreases t, 0, n
  {
    if n == 0 then 0 else Max(MembersNesting(t, n - 1), Nesting(t.members[n - 1].child))
  }

  function Max(a: nat, b: nat): nat {
    if a >= b then a else b
  }

  lemma {:induction false} DepthAfterBoth(a: string, b: string, depth: nat)
    ensures DepthAfter(a + b, depth) == DepthAfter(b, DepthAfter(a, depth))
  {
    if b == [] {
      assert a + b == a;
    } else {
      assert Front(a + b) == a + Front(b);
      DepthAfterBoth(a, Front(b), depth);
    }
  }

  lemma ExceedsEither(a: string, b: string, depth: nat, limit: nat)
    ensures Exceeds(a + b, depth, limit) <==> Exceeds(a, depth, limit) || Exceeds(b, DepthAfter(a, depth), limit)
  {
    if Exceeds(a, depth, limit) {
      var i :| 0 <= i <= |a| && DepthAfter(a[..i], depth) > limit;
      assert (a + b)[..i] == a[..i];
    }
    if Exceeds(b, DepthAfter(a, depth), limit) {
      var i :| 0 <= i <= |b| && DepthAfter(b[..i], DepthAfter(a, depth)) > limit;
      assert (a + b)[..|a| + i] == a + b[..i];
      DepthAfterBoth(a, b[..i], depth);
    }
    if Exceeds(a + b, depth, limit) {
      var i :| 0 <= i <= |a + b| && DepthAfter((a + b)[..i], depth) > limit;
      if i <= |a| {
        assert (a + b)[..i] == a[..i];
      } else {
        assert (a + b)[..i] == a + b[..i - |a|];
        DepthAfterBoth(a, b[..i - |a|], depth);
      }
    }
  }

  lemma {:induction false} PlainTextKeepsDepth(text: string, depth: nat, limit: nat)
    requires Plain(text) && depth <= limit
    ensures DepthAfter(text, depth) == depth && !Exceeds(text, depth, limit)
  {
    if text != [] {
      assert Last(text) in text && forall c :: c in Front(text) ==> c in text;
      PlainTextKeepsDepth(Front(text), depth, limit);
      forall i | 0 <= i <= |text|
        ensures DepthAfter(text[..i], depth) <= limit
      {
        if i < |text| {
          assert text[..i] == Front(text)[..i];
        } else {
          assert text[..i] == text;
        }
      }
    }
  }

  lemma OneCharacter(c: char, depth: nat, limit: nat)
    requires depth <= limit
    ensures DepthAfter([c], depth) == Step(depth, c)
    ensures Exceeds([c], depth, limit) <==> Step(depth, c) > limit
  {
    assert Front([c]) == [] && [c][..1] == [c] && [c][..0] == [];
    assert DepthAfter([c][..1], depth) == Step(depth, c);
  }

  lemma StartsTooDeep(text: string, depth: nat, limit: nat)
    requires depth > limit
    ensures Exceeds(text, depth, limit)
  {
    assert text[..0] == [];
  }

  lemma EndsTooDeep(text: string, depth: nat, limit: nat)
    requires DepthAfter(text, depth) > limit
    ensures Exceeds(text, depth, limit)
  {
    assert text[..|text|] == text;
  }

  /** What brackets add to the scan of a text: one level, and no more on the way out. */
  lemma EnclosedExceeds(open: char, body: string, close: char, depth: nat, limit: nat)
    requires Opens(open) && Closes(close)
    ensures Exceeds([open] + body + [close], depth, limit) <==> Exceeds(body, depth + 1, limit)
    ensures DepthAfter([open] + body + [close], depth) == Step(DepthAfter(body, depth + 1), close)
  {
    hide Exceeds, DepthAfter;
    if depth > limit {
      StartsTooDeep([open] + body + [close], depth, limit);
      StartsTooDeep(body, depth + 1, limit);
    }
    DepthAfterBoth([open], body, depth);
    DepthAfterBoth([open] + body, [close], depth);
    ExceedsEither([open] + body, [close], depth, limit);
    ExceedsEither([open], body, depth, limit);
    var end := DepthAfter(body, depth + 1);
    OneCharacter(open, depth, Max(depth, limit));
    OneCharacter(close, end, Max(end, limit));
    if end > limit {
      EndsTooDeep(body, depth + 1, limit);
    }
    if depth + 1 > limit {
      StartsTooDeep(body, depth + 1, limit);
    }
  }

  lemma {:induction false} TreeExceeds(t: Tree, depth: nat, limit: nat)
    requires BracketFree(t) && depth <= limit
    ensures DepthAfter(Print(t), depth) == depth
    ensures Exceeds(Print(t), depth, limit) <==> depth + Nesting(t) > limit
    decreases t, 1
  {
    if t.Scalar? {
      PlainTextKeepsDepth(t.text, depth, limit);
    } else {
      BodyExceedsAnywhere(t, depth + 1, limit);
      NodeExceeds(t, PrintMembers(t, |t.members|) + t.tail, depth, limit);
    }
  }

  lemma NodeExceeds(t: Tree, body: string, depth: nat, limit: nat)
    requires t.Node? && Opens(t.open) && body == PrintMembers(t, |t.members|) + t.tail
    requires DepthAfter(body, depth + 1) == depth + 1
    requires Exceeds(body, depth + 1, limit) <==> depth + 1 + MembersNesting(t, |t.members|) > limit
    ensures DepthAfter(Print(t), depth) == depth
    ensures Exceeds(Print(t), depth, limit) <==> depth + Nesting(t) > limit
  {
    hide Exceeds, DepthAfter, PrintMembers, MembersNesting;
    var close := if t.open == '[' then ']' else '}';
    EnclosedExceeds(t.open, body, close, depth, limit);
    assert Print(t) == [t.open] + body + [close];
  }

  lemma {:induction false} BodyExceedsAnywhere(t: Tree, depth: nat, limit: nat)
    requires t.Node? && BracketFree(t)
    ensures var body := PrintMembers(t, |t.members|) + t.tail;
      && DepthAfter(body, depth) == depth
      && (Exceeds(body, depth, limit) <==> depth + MembersNesting(t, |t.members|) > limit)
    decreases t, 0, |t.members| + 2
  {
    if depth <= limit {
      BodyExceeds(t, depth, limit);
    } else {
      BodyExceeds(t, depth, depth);
      StartsTooDeep(PrintMembers(t, |t.members|) + t.tail, depth, limit);
    }
  }

  lemma {:induction false} BodyExceeds(t: Tree, depth: nat, limit: nat)
    requires t.Node? && BracketFree(t) && depth <= limit
    ensures var body := PrintMembers(t, |t.members|) + t.tail;
      && DepthAfter(body, depth) == depth
      && (Exceeds(body, depth, limit) <==> depth + MembersNesting(t, |t.members|) > limit)
    decreases t, 0, |t.members| + 1
  {
    MembersExceed(t, |t.members|, depth, limit);
    PlainTextKeepsDepth(t.tail, depth, limit);
    ExceedsEither(PrintMembers(t, |t.members|), t.tail, depth, limit);
    DepthAfterBoth(PrintMembers(t, |t.members|), t.tail, depth);
  }

  lemma {:induction false} MembersExceed(t: Tree, n: nat, depth: nat, limit: nat)
    requires t.Node? && BracketFree(t) && n <= |t.members| && depth <= limit
    ensures DepthAfter(PrintMembers(t, n), depth) == depth
    ensures Exceeds(PrintMembers(t, n), depth, limit) <==> depth + MembersNesting(t, n) > limit
    decreases t, 0, n
  {
    if n == 0 {
      PlainTextKeepsDepth([], depth, limit);
    } else {
      var member := t.members[n - 1];
      var before := PrintMembers(t, n - 1);
      MembersExceed(t, n - 1, depth, limit);
      PlainTextKeepsDepth(member.before, depth, limit);
      TreeExceeds(member.child, depth, limit);
      ExceedsEither(before + member.before, Print(member.child), depth, limit);
      ExceedsEither(before, member.before, depth, limit);
      DepthAfterBoth(before + member.before, Print(member.child), depth);
      DepthAfterBoth(before, member.before, depth);
    }
  }

  /** On printed JSON without brackets in its strings the scan answers exactly whether the value nests too deep. */
  lemma ExceedsIffNestsDeeper(t: Tree, limit: nat)
    requires BracketFree(t)
    ensures Exceeds(Print(t), 0, limit) <==> Nesting(t) > limit
  {
    TreeExceeds(t, 0, limit);
  }

  // ---------------------------------------------------------------------------------------------------
  // Which keys and strings make the scan count too little
  // ---------------------------------------------------------------------------------------------------

  /** A key or string that never hides nesting: wherever the scan meets it, it passes the limit in it or leaves it at
      least as deep. */
  ghost predicate Safe(text: string, limit: nat) {
    forall depth: nat :: Exceeds(text, depth, limit) || DepthAfter(text, depth) >= depth
  }

  /** Every text of the tree is x or safe. */
  ghost predicate SafeBut(t: Tree, x: string, limit: nat) {
    match t
    case Scalar(text) => text == x || Safe(text, limit)
    case Node(open, members, tail) =>
      && Opens(open) && (tail == x || Safe(tail, limit))
      && forall i :: 0 <= i < |members| ==>
           (members[i].before == x || Safe(members[i].before, limit)) && SafeBut(members[i].child, x, limit)
  }

  /** What nests deeper than the limit is rejected. */
  ghost predicate Caught(t: Tree, limit: nat) {
    Nesting(t) > limit ==> Exceeds(Print(t), 0, limit)
  }

  /** Wherever it starts, the scan of the text passes the limit, or it ends no lower and there was room for the nesting. */
  ghost predicate Reaches(text: string, nesting: nat, limit: nat) {
    forall depth: nat ::
      Exceeds(text, depth, limit) || (DepthAfter(text, depth) >= depth && depth + nesting <= limit)
  }

  lemma SafeReaches(text: string, limit: nat)
    requires Safe(text, limit)
    ensures Reaches(text, 0, limit)
  {
    forall depth: nat
      ensures Exceeds(text, depth, limit) || (DepthAfter(text, depth) >= depth && depth <= limit)
    {
      if depth > limit {
        StartsTooDeep(text, depth, limit);
      }
    }
  }

  lemma PlainIsSafe(text: string, limit: nat)
    requires Plain(text)
    ensures Safe(text, limit)
  {
    forall depth: nat
      ensures Exceeds(text, depth, limit) || DepthAfter(text, depth) >= depth
    {
      PlainTextKeepsDepth(text, depth, depth);
    }
  }

  lemma ReachesBoth(a: string, b: string, m: nat, n: nat, limit: nat)
    requires Reaches(a, m, limit) && Reaches(b, n, limit)
    ensures Reaches(a + b, Max(m, n), limit)
  {
    forall depth: nat
      ensures Exceeds(a + b, depth, limit) ||
              (DepthAfter(a + b, depth) >= depth && depth + Max(m, n) <= limit)
    {
      ExceedsEither(a, b, depth, limit);
      DepthAfterBoth(a, b, depth);
      var between := DepthAfter(a, depth);
      assert Exceeds(b, between, limit) || (DepthAfter(b, between) >= between && between + n <= limit);
    }
  }

  lemma ReachesEnclosed(open: char, body: string, close: char, n: nat, limit: nat)
    requires Opens(open) && Closes(close) && Reaches(body, n, limit)
    ensures Reaches([open] + body + [close], n + 1, limit)
  {
    forall depth: nat
      ensures var text := [open] + body + [close];
        Exceeds(text, depth, limit) || (DepthAfter(text, depth) >= depth && depth + n + 1 <= limit)
    {
      EnclosedExceeds(open, body, close, depth, limit);
      assert Exceeds(body, depth + 1, limit) ||
        (DepthAfter(body, depth + 1) >= depth + 1 && depth + 1 + n <= limit);
    }
  }

  lemma {:induction false} TreeReaches(t: Tree, x: string, limit: nat)
    requires SafeBut(t, x, limit) && Safe(x, limit)
    ensures Reaches(Print(t), Nesting(t), limit)
    decreases t, 1
  {
    hide Safe, Reaches;
    if t.Scalar? {
      SafeReaches(t.text, limit);
    } else {
      var members := PrintMembers(t, |t.members|);
      var close := if t.open == '[' then ']' else '}';
      MembersReach(t, |t.members|, x, limit);
      SafeReaches(t.tail, limit);
      ReachesBoth(members, t.tail, MembersNesting(t, |t.members|), 0, limit);
      ReachesEnclosed(t.open, members + t.tail, close, MembersNesting(t, |t.members|), limit);
      assert Print(t) == [t.open] + (members + t.tail) + [close];
    }
  }

  lemma {:induction false} MembersReach(t: Tree, n: nat, x: string, limit: nat)
    requires t.Node? && n <= |t.members| && SafeBut(t, x, limit) && Safe(x, limit)
    ensures Reaches(PrintMembers(t, n), MembersNesting(t, n), limit)
    decreases t, 0, n
  {
    if n == 0 {
      PlainIsSafe([], limit);
      SafeReaches([], limit);
    } else {
      hide Safe, Reaches;
      var member := t.members[n - 1];
      var before := PrintMembers(t, n - 1);
      MembersReach(t, n - 1, x, limit);
      SafeReaches(member.before, limit);
      TreeReaches(member.child, x, limit);
      ReachesBoth(before, member.before, MembersNesting(t, n - 1), 0, limit);
      ReachesBoth(before + member.before, Print(member.child), MembersNesting(t, n - 1), Nesting(member.child), limit);
    }
  }

  /** k arrays around a tree, and k empty ones inside each other. */
  function Wrap(t: Tree, k: nat): Tree {
    if k == 0 then t else Node('[', [Member("", Wrap(t, k - 1))], "")
  }

  function Nest(k: nat): Tree {
    Wrap(Node('[', [], ""), k)
  }

  /** An array with the text at a given depth, and after it more nesting than the limit leaves room for. */
  function Hidden(x: string, depth: nat, limit: nat): Tree
    requires 1 <= depth <= limit
  {
    Wrap(Node('[', [Member("", Scalar(x)), Member(",", Nest(limit - depth))], ""), depth - 1)
  }

  lemma WrapOnce(t: Tree)
    ensures var w := Node('[', [Member("", t)], "");
      Nesting(w) == Nesting(t) + 1 && Print(w) == ['['] + Print(t) + [']']
  {
    var w := Node('[', [Member("", t)], "");
    assert MembersNesting(w, 1) == Nesting(t) && PrintMembers(w, 1) == Print(t);
  }

  lemma {:induction false} WrapNests(t: Tree, k: nat)
    ensures Nesting(Wrap(t, k)) == Nesting(t) + k
    ensures BracketFree(t) ==> BracketFree(Wrap(t, k))
  {
    if k > 0 {
      WrapNests(t, k - 1);
      WrapOnce(Wrap(t, k - 1));
    }
  }

  lemma {:induction false} WrapExceeds(t: Tree, k: nat, depth: nat, limit: nat)
    ensures Exceeds(Print(Wrap(t, k)), depth, limit) <==> Exceeds(Print(t), depth + k, limit)
  {
    hide Exceeds, Print, DepthAfter;
    if k > 0 {
      var inner := Wrap(t, k - 1);
      assert Wrap(t, k) == Node('[', [Member("", inner)], "");
      WrapExceeds(t, k - 1, depth + 1, limit);
      WrapOnce(inner);
      hide Wrap;
      EnclosedExceeds('[', Print(inner), ']', depth, limit);
    }
  }

  lemma {:induction false} WrapKeepsSafe(t: Tree, k: nat, x: string, limit: nat)
    requires SafeBut(t, x, limit)
    ensures SafeBut(Wrap(t, k), x, limit)
  {
    if k > 0 {
      PlainIsSafe("", limit);
      hide Safe;
      WrapKeepsSafe(t, k - 1, x, limit);
    }
  }

  lemma {:induction false} PlainTreesAreSafe(t: Tree, x: string, limit: nat)
    requires BracketFree(t)
    ensures SafeBut(t, x, limit)
  {
    if t.Scalar? {
      PlainIsSafe(t.text, limit);
    } else {
      PlainIsSafe(t.tail, limit);
      forall i | 0 <= i < |t.members|
        ensures Safe(t.members[i].before, limit) && SafeBut(t.members[i].child, x, limit)
      {
        PlainIsSafe(t.members[i].before, limit);
        PlainTreesAreSafe(t.members[i].child, x, limit);
      }
    }
  }

  lemma NestIsPlain(k: nat)
    ensures Nesting(Nest(k)) == k + 1 && BracketFree(Nest(k))
  {
    var empty := Node('[', [], "");
    assert Nesting(empty) == 1;
    WrapNests(empty, k);
  }

  /** A text that sinks below where it started hides what comes after it. */
  lemma SunkenHides(x: string, depth: nat, limit: nat)
    requires 1 <= depth <= limit && !Exceeds(x, depth, limit) && DepthAfter(x, depth) < depth
    ensures var t := Hidden(x, depth, limit);
      SafeBut(t, x, limit) && Nesting(t) == limit + 1 && !Exceeds(Print(t), 0, limit)
  {
    hide Exceeds, DepthAfter, Safe, Print;
    var nest := Nest(limit - depth);
    var inner := Node('[', [Member("", Scalar(x)), Member(",", nest)], "");
    NestIsPlain(limit - depth);
    InnerHides(x, nest, inner, depth, limit);
    WrapNests(inner, depth - 1);
    WrapExceeds(inner, depth - 1, 0, limit);
    WrapKeepsSafe(inner, depth - 1, x, limit);
  }

  lemma InnerHides(x: string, nest: Tree, inner: Tree, depth: nat, limit: nat)
    requires 1 <= depth <= limit && !Exceeds(x, depth, limit) && DepthAfter(x, depth) < depth
    requires BracketFree(nest) && Nesting(nest) == limit - depth + 1
    requires inner == Node('[', [Member("", Scalar(x)), Member(",", nest)], "")
    ensures SafeBut(inner, x, limit) && Nesting(inner) == limit - depth + 2
    ensures !Exceeds(Print(inner), depth - 1, limit)
  {
    InnerIsSafe(x, nest, inner, limit);
    InnerShape(x, nest, inner);
    hide Exceeds, Safe, SafeBut, DepthAfter, Print, Nesting, BracketFree;
    assert Plain(",");
    EnclosedExceeds('[', x + "," + Print(nest), ']', depth - 1, limit);
    ExceedsEither(x + ",", Print(nest), depth, limit);
    ExceedsEither(x, ",", depth, limit);
    DepthAfterBoth(x, ",", depth);
    PlainTextKeepsDepth(",", DepthAfter(x, depth), limit);
    TreeExceeds(nest, DepthAfter(x, depth), limit);
  }

  lemma InnerIsSafe(x: string, nest: Tree, inner: Tree, limit: nat)
    requires BracketFree(nest) && inner == Node('[', [Member("", Scalar(x)), Member(",", nest)], "")
    ensures SafeBut(inner, x, limit)
  {
    hide Exceeds, Safe;
    PlainIsSafe("", limit);
    PlainIsSafe(",", limit);
    PlainTreesAreSafe(nest, x, limit);
  }

  lemma InnerShape(x: string, nest: Tree, inner: Tree)
    requires inner == Node('[', [Member("", Scalar(x)), Member(",", nest)], "")
    ensures Print(inner) == ['['] + (x + "," + Print(nest)) + [']'] && Nesting(inner) == Nesting(nest) + 1
  {
    assert MembersNesting(inner, 1) == 0 && MembersNesting(inner, 2) == Nesting(nest);
    assert PrintMembers(inner, 1) == x;
    assert PrintMembers(inner, 2) == x + "," + Print(nest);
  }

  /** The scan is on the safe side exactly with safe texts: every tree that holds a text among safe ones is caught when it
      nests too deep if and only if the text is safe itself. */
  lemma CaughtIffSafe(x: string, limit: nat)
    ensures (forall t :: SafeBut(t, x, limit) ==> Caught(t, limit)) <==> Safe(x, limit)
  {
    if Safe(x, limit) {
      forall t | SafeBut(t, x, limit)
        ensures Caught(t, limit)
      {
        TreeReaches(t, x, limit);
      }
    } else {
      var depth: nat :| !Exceeds(x, depth, limit) && DepthAfter(x, depth) < depth;
      if depth > limit {
        StartsTooDeep(x, depth, limit);
      } else {
        SunkenHides(x, depth, limit);
        assert !Caught(Hidden(x, depth, limit), limit);
      }
    }
  }

  function Openers(text: string): nat {
    if text == [] then 0 else Openers(Front(text)) + if Opens(Last(text)) then 1 else 0
  }

  function Closers(text: string): nat {
    if text == [] then 0 else Closers(Front(text)) + if Closes(Last(text)) then 1 else 0
  }

  lemma {:induction false} NetDepth(text: string, depth: nat)
    ensures DepthAfter(text, depth) >= depth + Openers(text) - Closers(text)
    ensures DepthAfter(text, depth) <= depth + |text|
    ensures depth >= |text| ==> DepthAfter(text, depth) == depth + Openers(text) - Closers(text)
  {
    if text != [] {
      NetDepth(Front(text), depth);
      FewClosers(Front(text));
    }
  }

  lemma {:induction false} FewClosers(text: string)
    ensures Closers(text) <= |text|
  {
    if text != [] {
      FewClosers(Front(text));
    }
  }

  /** A key or string is safe whatever the limit exactly when it holds no more closing than opening brackets. */
  lemma SafeAtEveryLimitIff(x: string)
    ensures (forall limit: nat :: Safe(x, limit)) <==> Closers(x) <= Openers(x)
  {
    if Closers(x) <= Openers(x) {
      forall limit: nat, depth: nat
        ensures Exceeds(x, depth, limit) || DepthAfter(x, depth) >= depth
      {
        NetDepth(x, depth);
      }
    } else {
      var depth, limit := |x|, 2 * |x|;
      NetDepth(x, depth);
      forall i | 0 <= i <= |x|
        ensures DepthAfter(x[..i], depth) <= limit
      {
        NetDepth(x[..i], depth);
      }
      assert !Safe(x, limit);
    }
  }

  /** A string of one closing bracket, as it is printed. */
  const BRACKET_STRING := "\"]\""

  /** At every limit, the one of the source included, that string hides a value that nests deeper. */
  lemma StringsCanHideNesting(limit: nat, t: Tree)
    requires limit >= 1 && t == Hidden(BRACKET_STRING, 1, limit)
    ensures Nesting(t) == limit + 1 && !Exceeds(Print(t), 0, limit)
  {
    BracketStringSinks(BRACKET_STRING, limit);
    SunkenHides(BRACKET_STRING, 1, limit);
  }

  lemma BracketStringSinks(x: string, limit: nat)
    requires limit >= 1 && x == BRACKET_STRING
    ensures !Exceeds(x, 1, limit) && DepthAfter(x, 1) == 0
  {
    assert x == "\"" + "]" + "\"";
    PlainTextKeepsDepth("\"", 1, limit);
    PlainTextKeepsDepth("\"", 0, limit);
    OneCharacter(']', 1, limit);
    ExceedsEither("\"" + "]", "\"", 1, limit);
    ExceedsEither("\"", "]", 1, limit);
    DepthAfterBoth("\"" + "]", "\"", 1);
    DepthAfterBoth("\"", "]", 1);
  }

  // ---------------------------------------------------------------------------------------------------
  // Inference
  // ---------------------------------------------------------------------------------------------------

  function TypeSchema(name: string): Object {
    Obj(map["type" := Str(name)])
  }

  function ArraySchema(items: Json): Object {
    Obj(map["type" := Str("array"), "items" := items])
  }

  function ObjectSchema(props: map<string, Json>): Object {
    Obj(map["type" := Str("object"), "properties" := Obj(props)])
  }

  function Inferred(v: Json, depth: nat): Object {
    if depth > MAX_SCHEMA_DEPTH then TypeSchema("object")
    else
      match v
      case Null => TypeSchema("string")
      case Bool(_) => TypeSchema("boolean")
      case Num(_) => TypeSchema("number")
      case Str(_) => TypeSchema("string")
      case Arr(items) => ArraySchema(if items == [] then Obj(map[]) else Inferred(items[0], depth + 1))
      case Obj(fields) =>
        if |fields| == 0 || |fields| > MAX_PROPERTIES then TypeSchema("object")
        else ObjectSchema(map key | key in fields :: Inferred(fields[key], depth + 1))
  }

  method InferValue(v: Json, depth: nat) returns (schema: Object)
    ensures schema == Inferred(v, depth)
    decreases v, 1
  {
    if depth > MAX_SCHEMA_DEPTH {
      return TypeSchema("object");
    }
    match v
    case Null => return TypeSchema("string");
    case Bool(_) => return TypeSchema("boolean");
    case Num(_) => return TypeSchema("number");
    case Str(_) => return TypeSchema("string");
    case Arr(items) =>
      if |items| == 0 {
        return ArraySchema(Obj(map[]));
      }
      var first := InferValue(items[0], depth + 1);
      return ArraySchema(first);
    case Obj(fields) =>
      if |fields| == 0 || |fields| > MAX_PROPERTIES {
        return TypeSchema("object");
      }
      var props := InferProperties(v, depth);
      assert Inferred(v, depth).fields["properties"].fields == props;
      return ObjectSchema(props);
  }

  method InferProperties(v: Json, depth: nat) returns (props: map<string, Json>)
    requires v.Obj?
    ensures props == map key | key in v.fields :: Inferred(v.fields[key], depth + 1)
    decreases v, 0
  {
    props := map[];
    var rest := v.fields.Keys;
    while rest != {}
      invariant rest <= v.fields.Keys
      invariant props == map key | key in v.fields && key !in rest :: Inferred(v.fields[key], depth + 1)
      decreases |rest|
    {
      var key :| key in rest;
      rest := rest - {key};
      var child := InferValue(v.fields[key], depth + 1);
      props := props[key := child];
    }
  }

  // ---------------------------------------------------------------------------------------------------
  // Rendering
  // ---------------------------------------------------------------------------------------------------

  predicate IsIdentifier(s: string) {
    && s != []
    && forall i :: 0 <= i < |s| ==>
      s[i] == '_' || 'a' <= s[i] <= 'z' || 'A' <= s[i] <= 'Z' || ('0' <= s[i] <= '9' && i > 0)
  }

  const RECORD := "Record<string, any>"

  function TypeOf(s: Object): string {
    if "type" in s.fields && s.fields["type"].Str? then s.fields["type"].text else ""
  }

  function Properties(s: Object): map<string, Json> {
    if "properties" in s.fields && s.fields["properties"].Obj? then s.fields["properties"].fields else map[]
  }

  function Identifiers(props: map<string, Json>): set<string> {
    set key | key in props && IsIdentifier(key)
  }

  /** The rendering of a schema; no cap means any depth. */
  ghost function Render(s: Object, depth: nat, cap: Option<nat>): string
    decreases s, 1, 0
  {
    if cap.Some? && depth > cap.value then "any"
    else if TypeOf(s) == "string" then "string"
    else if TypeOf(s) == "number" then "number"
    else if TypeOf(s) == "boolean" then "boolean"
    else if TypeOf(s) == "array" then
      if "items" in s.fields && s.fields["items"].Obj? then "Array<" + Render(s.fields["items"], depth + 1, cap) + ">"
      else "any[]"
    else if TypeOf(s) == "object" then
      var keys := Text.Sorted(Identifiers(Properties(s)));
      if keys == [] then RECORD else "{ " + RenderProperties(s, keys, depth, cap) + " }"
    else "any"
  }

  ghost function RenderProperties(s: Object, keys: seq<string>, depth: nat, cap: Option<nat>): string
    requires forall key :: key in keys ==> key in Properties(s)
    decreases s, 0, |keys|
  {
    if keys == [] then ""
    else
      assert Last(keys) in keys && forall key :: key in Front(keys) ==> key in keys;
      var propSchema := Properties(s)[Last(keys)];
      var propType := if propSchema.Obj? then Clip(Render(propSchema, depth + 1, cap)) else "any";
      RenderProperties(s, Front(keys), depth, cap) + (if |keys| > 1 then "; " else "") + Last(keys) + ": " + propType
  }

  function Clip(propType: string): string {
    if |propType| > MAX_PROP_TYPE_LEN then "any" else propType
  }

  method RenderSchema(s: Object, depth: nat) returns (ts: string)
    ensures ts == Render(s, depth, Some(MAX_RENDER_DEPTH))
    decreases s, 1
  {
    if depth > MAX_RENDER_DEPTH {
      return "any";
    }
    var typ := TypeOf(s);
    if typ == "string" || typ == "number" || typ == "boolean" {
      return typ;
    }
    if typ == "array" {
      if "items" !in s.fields || !s.fields["items"].Obj? {
        return "any[]";
      }
      var items := RenderSchema(s.fields["items"], depth + 1);
      return "Array<" + items + ">";
    }
    if typ != "object" {
      return "any";
    }
    var keys := Text.Sort(Identifiers(Properties(s)));
    if |keys| == 0 {
      return RECORD;
    }
    var body := RenderFields(s, keys, depth);
    return "{ " + body + " }";
  }

  method RenderFields(s: Object, keys: seq<string>, depth: nat) returns (body: string)
    requires forall key :: key in keys ==> key in Properties(s)
    ensures body == RenderProperties(s, keys, depth, Some(MAX_RENDER_DEPTH))
    decreases s, 0
  {
    body := "";
    for i := 0 to |keys|
      invariant body == RenderProperties(s, keys[..i], depth, Some(MAX_RENDER_DEPTH))
    {
      assert Front(keys[..i + 1]) == keys[..i] && Last(keys[..i + 1]) == keys[i];
      if i > 0 {
        body := body + "; ";
      }
      var propSchema := Properties(s)[keys[i]];
      var propType := "any";
      if propSchema.Obj? {
        propType := RenderSchema(propSchema, depth + 1);
        if |propType| > MAX_PROP_TYPE_LEN {
          propType := "any";
        }
      }
      body := body + keys[i] + ": " + propType;
    }
    assert keys[..|keys|] == keys;
  }

  // ---------------------------------------------------------------------------------------------------
  // The rendering of any schema is harmless, of an inferred one complete
  // ---------------------------------------------------------------------------------------------------

  /** The characters a TypeScript type is made of: those of identifiers, blanks and a few marks. */
  predicate Harmless(text: string) {
    forall i :: 0 <= i < |text| ==> HarmlessChar(text[i])
  }

  predicate HarmlessChar(c: char) {
    c == '_' || 'a' <= c <= 'z' || 'A' <= c <= 'Z' || '0' <= c <= '9' || c in " :;,<>{}[]"
  }

  lemma LiteralsAreHarmless()
    ensures Harmless("any") && Harmless("string") && Harmless("number") && Harmless("boolean") && Harmless("any[]")
    ensures Harmless("Array<") && Harmless(">") && Harmless(RECORD) && Harmless("{ ") && Harmless(" }")
    ensures Harmless("; ") && Harmless(": ") && Harmless("")
  {
  }

  /** Whatever the schema, and whatever it names its properties, the rendering holds nothing but harmless characters. */
  lemma {:induction false} RenderingIsHarmless(s: Object, depth: nat, cap: Option<nat>)
    ensures Harmless(Render(s, depth, cap))
    decreases s, 1
  {
    LiteralsAreHarmless();
    if TypeOf(s) == "array" && "items" in s.fields && s.fields["items"].Obj? {
      RenderingIsHarmless(s.fields["items"], depth + 1, cap);
    } else if TypeOf(s) == "object" {
      PropertiesAreHarmless(s, Text.Sorted(Identifiers(Properties(s))), depth, cap);
    }
  }

  lemma {:induction false} PropertiesAreHarmless(s: Object, keys: seq<string>, depth: nat, cap: Option<nat>)
    requires forall key :: key in keys ==> key in Properties(s) && IsIdentifier(key)
    ensures Harmless(RenderProperties(s, keys, depth, cap))
    decreases s, 0, |keys|
  {
    hide Render, IsIdentifier, HarmlessChar;
    if keys != [] {
      assert Last(keys) in keys && forall key :: key in Front(keys) ==> key in keys;
      PropertiesAreHarmless(s, Front(keys), depth, cap);
      PropertyIsHarmless(s, Last(keys), depth, cap);
      LiteralsAreHarmless();
    }
  }

  lemma {:induction false} PropertyIsHarmless(s: Object, key: string, depth: nat, cap: Option<nat>)
    requires key in Properties(s) && IsIdentifier(key)
    ensures Harmless(key)
    ensures Properties(s)[key].Obj? ==> Harmless(Clip(Render(Properties(s)[key], depth + 1, cap)))
    decreases s, 0, 0
  {
    LiteralsAreHarmless();
    if Properties(s)[key].Obj? {
      RenderingIsHarmless(Properties(s)[key], depth + 1, cap);
    }
  }

  /** Rendering the schema goes at most n levels down. */
  ghost predicate Within(s: Object, n: nat)
    decreases s
  {
    if TypeOf(s) == "array" && "items" in s.fields && s.fields["items"].Obj? then
      n > 0 && Within(s.fields["items"], n - 1)
    else if TypeOf(s) == "object" then
      forall key :: key in Properties(s) && Properties(s)[key].Obj? ==> n > 0 && Within(Properties(s)[key], n - 1)
    else true
  }

  lemma {:induction false} CapUnseen(s: Object, depth: nat, cap: nat)
    requires depth <= cap && Within(s, cap - depth)
    ensures Render(s, depth, Some(cap)) == Render(s, depth, None)
    decreases s, 1
  {
    hide RenderProperties, IsIdentifier, Text.Sorted;
    if TypeOf(s) == "array" && "items" in s.fields && s.fields["items"].Obj? {
      CapUnseen(s.fields["items"], depth + 1, cap);
    } else if TypeOf(s) == "object" {
      CapUnseenInProperties(s, Text.Sorted(Identifiers(Properties(s))), depth, cap);
    }
  }

  lemma {:induction false} CapUnseenInProperties(s: Object, keys: seq<string>, depth: nat, cap: nat)
    requires forall key :: key in keys ==> key in Properties(s)
    requires TypeOf(s) == "object" && depth <= cap && Within(s, cap - depth)
    ensures RenderProperties(s, keys, depth, Some(cap)) == RenderProperties(s, keys, depth, None)
    decreases s, 0, |keys|
  {
    hide Render, IsIdentifier;
    if keys != [] {
      assert Last(keys) in keys && forall key :: key in Front(keys) ==> key in keys;
      CapUnseenInProperties(s, Front(keys), depth, cap);
      var propSchema := Properties(s)[Last(keys)];
      if propSchema.Obj? {
        CapUnseen(propSchema, depth + 1, cap);
      }
    }
  }

  lemma InferredProperties(v: Object, depth: nat)
    requires depth <= MAX_SCHEMA_DEPTH && 0 < |v.fields| <= MAX_PROPERTIES
    ensures TypeOf(Inferred(v, depth)) == "object"
    ensures Properties(Inferred(v, depth)).Keys == v.fields.Keys
    ensures forall key :: key in v.fields ==> Properties(Inferred(v, depth))[key] == Inferred(v.fields[key], depth + 1)
  {
  }

  lemma {:induction false} InferredIsShallow(v: Json, depth: nat)
    requires depth <= MAX_SCHEMA_DEPTH + 1
    ensures Within(Inferred(v, depth), MAX_SCHEMA_DEPTH + 1 - depth)
    decreases v, 1
  {
    if depth <= MAX_SCHEMA_DEPTH {
      if v.Arr? && v.items != [] {
        InferredIsShallow(v.items[0], depth + 1);
      } else if v.Obj? && 0 < |v.fields| <= MAX_PROPERTIES {
        PropertiesAreShallow(v, depth, Inferred(v, depth));
      }
    }
  }

  lemma {:induction false} PropertiesAreShallow(v: Object, depth: nat, s: Object)
    requires depth <= MAX_SCHEMA_DEPTH && 0 < |v.fields| <= MAX_PROPERTIES && s == Inferred(v, depth)
    ensures Within(s, MAX_SCHEMA_DEPTH + 1 - depth)
    decreases v, 0
  {
    InferredProperties(v, depth);
    forall key | key in Properties(s)
      ensures Within(Properties(s)[key], MAX_SCHEMA_DEPTH - depth)
    {
      InferredIsShallow(v.fields[key], depth + 1);
    }
  }

  /** However large and deep the value, the renderer's depth cap plays no part in its inferred schema. */
  lemma CapNeverReached(v: Json)
    ensures Render(Inferred(v, 0), 0, Some(MAX_RENDER_DEPTH)) == Render(Inferred(v, 0), 0, None)
  {
    InferredIsShallow(v, 0);
    WithinMore(Inferred(v, 0), MAX_SCHEMA_DEPTH + 1, MAX_RENDER_DEPTH);
    CapUnseen(Inferred(v, 0), 0, MAX_RENDER_DEPTH);
  }

  lemma {:induction false} WithinMore(s: Object, m: nat, n: nat)
    requires Within(s, m) && m <= n
    ensures Within(s, n)
    decreases s
  {
    if TypeOf(s) == "array" && "items" in s.fields && s.fields["items"].Obj? {
      WithinMore(s.fields["items"], m - 1, n - 1);
    } else if TypeOf(s) == "object" {
      forall key | key in Properties(s) && Properties(s)[key].Obj?
        ensures Within(Properties(s)[key], n - 1)
      {
        WithinMore(Properties(s)[key], m - 1, n - 1);
      }
    }
  }

  // ---------------------------------------------------------------------------------------------------
  // What an inferred schema says about its value
  // ---------------------------------------------------------------------------------------------------

  /** A value has the type the schema gives it: an array in its first element, an object in every property listed. */
  ghost predicate Describes(s: Object, v: Json)
    decreases v, 1
  {
    match v
    case Null => TypeOf(s) == "string"
    case Bool(_) => TypeOf(s) == "boolean"
    case Num(_) => TypeOf(s) == "number"
    case Str(_) => TypeOf(s) == "string"
    case Arr(items) =>
      && TypeOf(s) == "array" && "items" in s.fields && s.fields["items"].Obj?
      && (items != [] ==> Describes(s.fields["items"], items[0]))
    case Obj(fields) =>
      && TypeOf(s) == "object"
      && ("properties" in s.fields ==> DescribesFields(s, v))
  }

  ghost predicate DescribesFields(s: Object, v: Object)
    decreases v, 0
  {
    && Properties(s).Keys == v.fields.Keys
    && forall key :: key in v.fields ==> Properties(s)[key].Obj? && Describes(Properties(s)[key], v.fields[key])
  }

  /** Everything the inference reaches below its depth limit is an object. */
  ghost predicate OnlyObjectsBelow(v: Json, depth: nat)
    decreases v
  {
    if depth > MAX_SCHEMA_DEPTH then v.Obj?
    else
      match v
      case Arr(items) => items != [] ==> OnlyObjectsBelow(items[0], depth + 1)
      case Obj(fields) =>
        |fields| <= MAX_PROPERTIES ==> forall key :: key in fields ==> OnlyObjectsBelow(fields[key], depth + 1)
      case _ => true
  }

  /** The inferred schema describes the value it was inferred from exactly when nothing but objects is cut off: any
      other value found four levels down is called an object all the same. */
  lemma {:induction false} DescribesIffOnlyObjectsBelow(v: Json, depth: nat)
    ensures Describes(Inferred(v, depth), v) <==> OnlyObjectsBelow(v, depth)
    decreases v, 1
  {
    if depth <= MAX_SCHEMA_DEPTH {
      if v.Arr? && v.items != [] {
        DescribesIffOnlyObjectsBelow(v.items[0], depth + 1);
      } else if v.Obj? && 0 < |v.fields| <= MAX_PROPERTIES {
        PropertiesDescribe(v, depth);
      }
    }
  }

  lemma {:induction false} PropertiesDescribe(v: Object, depth: nat)
    requires depth <= MAX_SCHEMA_DEPTH && 0 < |v.fields| <= MAX_PROPERTIES
    ensures DescribesFields(Inferred(v, depth), v) <==>
      forall key :: key in v.fields ==> OnlyObjectsBelow(v.fields[key], depth + 1)
    decreases v, 0
  {
    hide Inferred, Describes, OnlyObjectsBelow, Properties;
    InferredProperties(v, depth);
    var props := Properties(Inferred(v, depth));
    forall key | key in v.fields
      ensures props[key].Obj? && (Describes(props[key], v.fields[key]) <==> OnlyObjectsBelow(v.fields[key], depth + 1))
    {
      DescribesIffOnlyObjectsBelow(v.fields[key], depth + 1);
    }
  }

  function Arrays(v: Json, k: nat): Json {
    if k == 0 then v else Arr([Arrays(v, k - 1)])
  }

  /** Four arrays around anything but an object: the schema calls what is in them an object. */
  lemma FourArraysMisdescribed(v: Json)
    requires !v.Obj?
    ensures var nested := Arrays(v, MAX_SCHEMA_DEPTH + 1); !Describes(Inferred(nested, 0), nested)
  {
    CutOff(v, MAX_SCHEMA_DEPTH + 1, 0);
    DescribesIffOnlyObjectsBelow(Arrays(v, MAX_SCHEMA_DEPTH + 1), 0);
  }

  lemma {:induction false} CutOff(v: Json, k: nat, depth: nat)
    requires !v.Obj? && k + depth == MAX_SCHEMA_DEPTH + 1
    ensures !OnlyObjectsBelow(Arrays(v, k), depth)
  {
    if k > 0 {
      CutOff(v, k - 1, depth + 1);
    }
  }
}
