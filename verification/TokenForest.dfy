/** The flat token array is a preorder forest, in every state the tokenizer can reach. */
module TokenForest {
  import opened Jsmn

  /** a is j or one of the tokens above j along the parent links. */
  ghost predicate Above(toks: seq<Token>, a: int, j: nat)
    requires Linked(toks) && j < |toks|
    decreases j
  {
    a == j || (toks[j].parent >= 0 && Above(toks, a, toks[j].parent))
  }

  /** How many of the first n tokens name a as their parent. */
  function ChildCount(toks: seq<Token>, a: int, n: nat): nat
    requires n <= |toks|
  {
    if n == 0 then 0 else ChildCount(toks, a, n - 1) + if toks[n - 1].parent == a then 1 else 0
  }

  /** Token i hangs below the root or below an ancestor-or-self of the token before it. */
  ghost predicate HangsRight(toks: seq<Token>, i: nat)
    requires Linked(toks) && i < |toks|
  {
    toks[i].parent == -1 || (i > 0 && Above(toks, toks[i].parent, i - 1))
  }

  ghost predicate Preorder(toks: seq<Token>) {
    Linked(toks) && forall i :: 0 <= i < |toks| ==> HangsRight(toks, i)
  }

  ghost predicate Forest(toks: seq<Token>) {
    && Preorder(toks)
    && forall i :: 0 <= i < |toks| ==> toks[i].size == ChildCount(toks, i, |toks|)
  }

  ghost predicate OnRightmostPath(toks: seq<Token>, a: int)
    requires Linked(toks)
  {
    a == -1 || (0 < |toks| && Above(toks, a, |toks| - 1))
  }

  /** Bounds of a token within the first pos characters; only containers can be open. */
  predicate WellShaped(t: Token, pos: nat) {
    && !t.typ.Undefined?
    && 0 <= t.start <= pos
    && (if t.end == -1 then Container(t.typ) else t.start <= t.end <= pos)
  }

  ghost predicate Shaped(s: State) {
    forall i :: 0 <= i < |s.toks| ==> WellShaped(s.toks[i], s.pos)
  }

  /** Every open container is the superior token or above it. */
  ghost predicate OpensAbove(s: State)
    requires Sound(s)
  {
    forall i :: 0 <= i < |s.toks| && Open(s.toks[i]) ==> s.super >= 0 && Above(s.toks, i, s.super)
  }

  ghost predicate Inv(s: State) {
    Sound(s) && Forest(s.toks) && OnRightmostPath(s.toks, s.super) && Shaped(s) && OpensAbove(s)
  }

  // ---------------------------------------------------------------- ancestors

  lemma {:induction false} AboveBound(toks: seq<Token>, a: int, j: nat)
    requires Linked(toks) && j < |toks| && Above(toks, a, j)
    ensures 0 <= a <= j
    decreases j
  {
    if a != j {
      AboveBound(toks, a, toks[j].parent);
    }
  }

  lemma {:induction false} AboveTransitive(toks: seq<Token>, a: int, b: nat, j: nat)
    requires Linked(toks) && b <= j < |toks|
    requires Above(toks, a, b) && Above(toks, b, j)
    ensures Above(toks, a, j)
    decreases j
  {
    if b != j {
      AboveBound(toks, b, toks[j].parent);
      AboveTransitive(toks, a, b, toks[j].parent);
    }
  }

  lemma {:induction false} AboveFrame(toks: seq<Token>, toks': seq<Token>, a: int, j: nat)
    requires Linked(toks) && Linked(toks') && j < |toks| && j < |toks'|
    requires forall k :: 0 <= k <= j ==> toks[k].parent == toks'[k].parent
    ensures Above(toks, a, j) == Above(toks', a, j)
    decreases j
  {
    if toks[j].parent >= 0 {
      AboveFrame(toks, toks', a, toks[j].parent);
    }
  }

  /** In a preorder forest the descendants of a are the tokens after it up to the first one
      whose parent lies before a: one direction. */
  lemma {:induction false} AboveIsInterval(toks: seq<Token>, a: nat, j: nat)
    requires Preorder(toks) && j < |toks| && Above(toks, a, j)
    ensures a <= j && forall k :: a < k <= j ==> toks[k].parent >= a
    decreases j
  {
    if a != j {
      var p := toks[j].parent;
      AboveBound(toks, a, p);
      assert HangsRight(toks, j);
      AboveTransitive(toks, a, p, j - 1);
      AboveIsInterval(toks, a, j - 1);
    }
  }

  /** And the other. */
  lemma {:induction false} IntervalIsAbove(toks: seq<Token>, a: nat, j: nat)
    requires Linked(toks) && a <= j < |toks| && forall k :: a < k <= j ==> toks[k].parent >= a
    ensures Above(toks, a, j)
    decreases j
  {
    if a < j {
      IntervalIsAbove(toks, a, toks[j].parent);
    }
  }

  /** Of two ancestors of one token, the earlier is above the later. */
  lemma AboveComparable(toks: seq<Token>, a: nat, b: nat, j: nat)
    requires Preorder(toks) && a <= b <= j < |toks| && Above(toks, a, j)
    ensures Above(toks, a, b)
  {
    hide Above;
    AboveIsInterval(toks, a, j);
    IntervalIsAbove(toks, a, b);
  }

  // ---------------------------------------------------------------- child counts

  lemma {:induction false} ChildCountFrame(toks: seq<Token>, toks': seq<Token>, a: int, n: nat)
    requires n <= |toks| && n <= |toks'|
    requires forall k :: 0 <= k < n ==> toks[k].parent == toks'[k].parent
    ensures ChildCount(toks, a, n) == ChildCount(toks', a, n)
  {
    if n > 0 {
      ChildCountFrame(toks, toks', a, n - 1);
    }
  }

  lemma {:induction false} NoChildren(toks: seq<Token>, a: int, n: nat)
    requires n <= |toks| && forall k :: 0 <= k < n ==> toks[k].parent != a
    ensures ChildCount(toks, a, n) == 0
  {
    if n > 0 {
      NoChildren(toks, a, n - 1);
    }
  }

  // ---------------------------------------------------------------- preservation

  /** A change that leaves the parent links and sizes alone leaves the forest alone. */
  lemma ForestFrame(toks: seq<Token>, toks': seq<Token>)
    requires Forest(toks) && |toks'| == |toks|
    requires forall k :: 0 <= k < |toks| ==> toks[k].parent == toks'[k].parent && toks[k].size == toks'[k].size
    ensures Forest(toks')
    ensures forall a, j: nat :: j < |toks| ==> Above(toks, a, j) == Above(toks', a, j)
  {
    forall a, j: nat | j < |toks|
      ensures Above(toks, a, j) == Above(toks', a, j)
    {
      AboveFrame(toks, toks', a, j);
    }
    forall i | 0 <= i < |toks'|
      ensures HangsRight(toks', i)
    {
      assert HangsRight(toks, i);
    }
    forall i | 0 <= i < |toks|
      ensures ChildCount(toks', i, |toks|) == toks'[i].size
    {
      ChildCountFrame(toks, toks', i, |toks|);
    }
  }

  lemma AppendKeepsForest(s: State, t: Token, pos: nat, super: int)
    requires Sound(s) && Forest(s.toks) && OnRightmostPath(s.toks, s.super)
    requires t.parent == s.super && t.size == 0
    ensures Forest(Append(s, t, pos, super).toks)
    ensures forall a, j: nat :: j < |s.toks| ==> Above(s.toks, a, j) == Above(Append(s, t, pos, super).toks, a, j)
  {
    hide Above, ChildCount;
    AppendKeepsPreorder(s, t, pos, super);
    AppendKeepsCounts(s, t, pos, super);
  }

  lemma AppendKeepsPreorder(s: State, t: Token, pos: nat, super: int)
    requires Sound(s) && Preorder(s.toks) && OnRightmostPath(s.toks, s.super) && t.parent == s.super
    ensures Preorder(Append(s, t, pos, super).toks)
    ensures forall a, j: nat :: j < |s.toks| ==> Above(s.toks, a, j) == Above(Append(s, t, pos, super).toks, a, j)
  {
    hide Above;
    var toks' := Append(s, t, pos, super).toks;
    forall a, j: nat | j < |s.toks|
      ensures Above(s.toks, a, j) == Above(toks', a, j)
    {
      AboveFrame(s.toks, toks', a, j);
    }
    forall i | 0 <= i < |toks'|
      ensures HangsRight(toks', i)
    {
      assert i < |s.toks| ==> HangsRight(s.toks, i);
    }
  }

  lemma AppendKeepsCounts(s: State, t: Token, pos: nat, super: int)
    requires Sound(s) && t.parent == s.super && t.size == 0
    requires forall i :: 0 <= i < |s.toks| ==> s.toks[i].size == ChildCount(s.toks, i, |s.toks|)
    ensures var toks' := Append(s, t, pos, super).toks;
            forall i :: 0 <= i < |toks'| ==> toks'[i].size == ChildCount(toks', i, |toks'|)
  {
    var n := |s.toks|;
    var toks' := Append(s, t, pos, super).toks;
    forall i | 0 <= i < |toks'|
      ensures toks'[i].size == ChildCount(toks', i, |toks'|)
    {
      ChildCountFrame(s.toks, toks', i, n);
      if i == n {
        NoChildren(toks', n, n);
      }
    }
  }

  lemma AppendKeepsInv(s: State, t: Token, pos: nat, super: int)
    requires Inv(s) && s.pos <= pos
    requires t.parent == s.super && t.size == 0 && WellShaped(t, pos)
    requires super == |s.toks| || (super == s.super && !Open(t))
    ensures Inv(Append(s, t, pos, super))
  {
    AppendKeepsForest(s, t, pos, super);
    AppendKeepsOpens(s, t, pos, super);
    var s' := Append(s, t, pos, super);
    assert s'.toks[|s.toks|] == t;
    if super >= 0 {
      assert Above(s'.toks, super, super);
    }
    hide Forest;
  }

  lemma AppendKeepsOpens(s: State, t: Token, pos: nat, super: int)
    requires Sound(s) && OpensAbove(s) && t.parent == s.super
    requires super == |s.toks| || (super == s.super && !Open(t))
    requires Linked(Append(s, t, pos, super).toks)
    requires forall a, j: nat :: j < |s.toks| ==> Above(s.toks, a, j) == Above(Append(s, t, pos, super).toks, a, j)
    ensures OpensAbove(Append(s, t, pos, super))
  {
    var toks, n := s.toks, |s.toks|;
    var s' := Append(s, t, pos, super);
    forall i | 0 <= i <= n && Open(s'.toks[i])
      ensures super >= 0 && Above(s'.toks, i, super)
    {
      if i < n {
        assert Open(toks[i]);
        assert Above(s'.toks, i, s.super);
      }
    }
  }

  /** A closing bracket stops at the nearest open token at or above i. */
  lemma {:induction false} CloseWalkNearest(toks: seq<Token>, i: nat, typ: TokenType, super: int)
    requires Linked(toks) && i < |toks|
    ensures var w := CloseWalk(toks, i, typ, super);
            w.Closes? ==> Above(toks, w.index, i) && forall k :: 0 <= k <= i && Above(toks, k, i) && Open(toks[k]) ==>
                k <= w.index
    decreases i
  {
    if !Open(toks[i]) && toks[i].parent != -1 {
      CloseWalkNearest(toks, toks[i].parent, typ, super);
      forall k | 0 <= k < i && Above(toks, k, i)
        ensures k <= toks[i].parent
      {
        AboveBound(toks, k, toks[i].parent);
      }
    }
  }

  /** A bracket that closes a token closes the innermost (last opened) open one. */
  lemma CloseInnermost(s: State, typ: TokenType)
    requires Inv(s) && |s.toks| > 0
    requires CloseWalk(s.toks, |s.toks| - 1, typ, s.super).Closes?
    ensures var c := CloseWalk(s.toks, |s.toks| - 1, typ, s.super).index;
            Above(s.toks, c, |s.toks| - 1) && s.toks[c].typ == typ
            && forall k :: 0 <= k < |s.toks| && Open(s.toks[k]) ==> k <= c && Above(s.toks, k, |s.toks| - 1)
  {
    var last := |s.toks| - 1;
    CloseWalkNearest(s.toks, last, typ, s.super);
    forall k | 0 <= k < |s.toks| && Open(s.toks[k])
      ensures Above(s.toks, k, last)
    {
      AboveBound(s.toks, s.super, last);
      AboveTransitive(s.toks, k, s.super, last);
    }
  }

  lemma ParentOnPath(toks: seq<Token>, a: nat)
    requires Linked(toks) && a < |toks| && OnRightmostPath(toks, a)
    ensures OnRightmostPath(toks, toks[a].parent)
    ensures forall i :: 0 <= i < |toks| && i != a && Above(toks, i, a) ==>
            toks[a].parent >= 0 && Above(toks, i, toks[a].parent)
  {
    var p := toks[a].parent;
    AboveBound(toks, a, |toks| - 1);
    if p >= 0 {
      assert Above(toks, p, p);
      assert Above(toks, p, a);
      AboveTransitive(toks, p, a, |toks| - 1);
    }
  }

  lemma SpaceKeepsInv(s: State)
    requires Inv(s)
    ensures Inv(s.(pos := s.pos + 1))
  {
  }

  /** The parent of the closed token is where parsing goes on: it lies on the rightmost path
      and below every token that is still open. */
  lemma CloseParent(toks: seq<Token>, c: nat)
    requires Preorder(toks) && c < |toks| && Above(toks, c, |toks| - 1)
    requires forall k :: 0 <= k < |toks| && Open(toks[k]) ==> k <= c && Above(toks, k, |toks| - 1)
    ensures OnRightmostPath(toks, toks[c].parent)
    ensures forall k :: 0 <= k < |toks| && k != c && Open(toks[k]) ==>
      toks[c].parent >= 0 && Above(toks, k, toks[c].parent)
  {
    hide Above;
    ParentOnPath(toks, c);
    AboveBound(toks, c, |toks| - 1);
    forall k | 0 <= k < |toks| && k != c && Open(toks[k])
      ensures toks[c].parent >= 0 && Above(toks, k, toks[c].parent)
    {
      AboveParent(toks, k, c, |toks| - 1);
    }
  }

  lemma AboveParent(toks: seq<Token>, k: nat, c: nat, j: nat)
    requires Preorder(toks) && k < c <= j < |toks| && Above(toks, k, j)
    ensures toks[c].parent >= 0 && Above(toks, k, toks[c].parent)
  {
    AboveComparable(toks, k, c, j);
  }

  lemma CloseKeepsInv(s: State, typ: TokenType)
    requires Inv(s) && StepClose(s, typ).Next?
    ensures Inv(StepClose(s, typ).st)
  {
    assert Sound(s);
    hide CloseWalk, Inv, Forest, Linked, Above;
    var w := CloseWalk(s.toks, |s.toks| - 1, typ, s.super);
    if w.Closes? {
      CloseInnermost(s, typ);
      ClosedKeepsInv(s, w.index);
    } else {
      SpaceKeepsInv(s);
    }
  }

  lemma ClosedKeepsInv(s: State, c: nat)
    requires Inv(s) && c < |s.toks| && Open(s.toks[c]) && Above(s.toks, c, |s.toks| - 1)
    requires forall k :: 0 <= k < |s.toks| && Open(s.toks[k]) ==> k <= c && Above(s.toks, k, |s.toks| - 1)
    ensures Inv(State(s.pos + 1, s.toks[c := s.toks[c].(end := s.pos + 1)], s.toks[c].parent))
  {
    hide Above, ChildCount;
    var toks := s.toks;
    var toks' := toks[c := toks[c].(end := s.pos + 1)];
    CloseParent(toks, c);
    ForestFrame(toks, toks');
    assert forall k :: 0 <= k < |toks| && Open(toks'[k]) ==> k != c && Open(toks[k]);
    hide Forest;
    assert WellShaped(toks'[c], s.pos + 1);
  }

  lemma ColonKeepsInv(s: State)
    requires Inv(s)
    ensures Inv(s.(pos := s.pos + 1, super := |s.toks| - 1))
  {
    var toks, last := s.toks, |s.toks| - 1;
    if s.super >= 0 {
      AboveBound(toks, s.super, last);
      forall i | 0 <= i < |toks| && Open(toks[i])
        ensures Above(toks, i, last)
      {
        AboveTransitive(toks, i, s.super, last);
      }
    }
    hide Forest;
  }

  lemma CommaKeepsInv(s: State)
    requires Inv(s)
    ensures Inv(s.(pos := s.pos + 1, super := AfterComma(s)))
  {
    var toks, super := s.toks, AfterComma(s);
    if super != s.super {
      ParentOnPath(toks, s.super);
    }
    hide Forest;
  }

  lemma StepOpenKeepsInv(s: State, typ: TokenType, cap: nat)
    requires Inv(s) && Container(typ) && StepOpen(s, typ, cap).Next?
    ensures Inv(StepOpen(s, typ, cap).st)
  {
    hide Inv, Append;
    AppendKeepsInv(s, Token(typ, s.pos, -1, 0, s.super), s.pos + 1, |s.toks|);
  }

  lemma StepStringKeepsInv(js: string, s: State, cap: nat)
    requires Inv(s) && s.pos < |js| && StepString(js, s, cap).Next?
    ensures Inv(StepString(js, s, cap).st)
  {
    hide Inv, Append, ScanString;
    var q := ScanString(js, s.pos + 1).pos;
    AppendKeepsInv(s, Token(String, s.pos + 1, q, 0, s.super), q + 1, s.super);
  }

  lemma StepPrimitiveKeepsInv(js: string, s: State, cap: nat)
    requires Inv(s) && s.pos < |js| && StartsPrimitive(js[s.pos]) && StepPrimitive(js, s, cap).Next?
    ensures Inv(StepPrimitive(js, s, cap).st)
  {
    hide Inv, Append, ScanPrimitive;
    var q := ScanPrimitive(js, s.pos).pos;
    AppendKeepsInv(s, Token(Primitive, s.pos, q, 0, s.super), q, s.super);
  }

  lemma StepKeepsInv(js: string, s: State, cap: nat)
    requires Inv(s) && s.pos < |js| && Step(js, s, cap).Next?
    ensures Inv(Step(js, s, cap).st)
  {
    assert Sound(s);
    hide Inv, Linked, StepOpen, StepClose, StepString, StepPrimitive, AfterComma;
    var c := js[s.pos];
    if c == '{' || c == '[' {
      StepOpenKeepsInv(s, if c == '{' then Object else Array, cap);
    } else if c == '}' || c == ']' {
      CloseKeepsInv(s, if c == '}' then Object else Array);
    } else if c == '\"' {
      StepStringKeepsInv(js, s, cap);
    } else if c == ':' {
      ColonKeepsInv(s);
    } else if c == ',' {
      CommaKeepsInv(s);
    } else if StartsPrimitive(c) {
      StepPrimitiveKeepsInv(js, s, cap);
    } else {
      SpaceKeepsInv(s);
    }
  }

  /** For every text, every token limit and every starting state that satisfies the invariant:
      the parser leaves a preorder forest behind, also when it fails, and when it succeeds
      no bracket is left open. */
  lemma {:induction false} RunKeepsInv(js: string, s: State, cap: nat)
    requires Inv(s)
    ensures Inv(Run(js, s, cap).st)
    ensures Run(js, s, cap).code >= 0 ==>
      Run(js, s, cap).code == |Run(js, s, cap).st.toks| && !HasOpen(Run(js, s, cap).st.toks)
    decreases |js| - s.pos
  {
    if !AtEnd(js, s.pos) && Step(js, s, cap).Next? {
      StepKeepsInv(js, s, cap);
      RunKeepsInv(js, Step(js, s, cap).st, cap);
    }
  }

  // ---------------------------------------------------------------- counting pass and filling pass

  /** One step of the filling pass, when it goes on, is one step of the counting pass. */
  lemma StepCounts(js: string, s: State, cap: nat)
    requires Sound(s) && s.pos < |js|
    ensures var o, c := Step(js, s, cap), CountStep(js, s.pos);
            && (o.Next? ==> c == Counted(o.st.pos, |o.st.toks| - |s.toks|))
            && (o == Stop(ERROR_NOMEM) ==> c.Counted? && |s.toks| + c.tokens > cap)
  {
  }

  lemma {:induction false} CountOnlyGrows(js: string, p: nat, count: nat)
    ensures CountRun(js, p, count) < 0 || CountRun(js, p, count) >= count
    decreases |js| - p
  {
    if !AtEnd(js, p) && CountStep(js, p).Counted? {
      CountOnlyGrows(js, CountStep(js, p).pos, count + CountStep(js, p).tokens);
    }
  }

  /** The count without tokens is exactly the number of tokens the filling pass needs:
      with that many it never runs out, with fewer it never succeeds, and success means the count. */
  lemma {:induction false} TwoPassAgreement(js: string, s: State, cap: nat)
    requires Sound(s)
    ensures var n, r := CountRun(js, s.pos, |s.toks|), Run(js, s, cap);
            && (0 <= n <= cap ==> r.code != ERROR_NOMEM)
            && (r.code >= 0 ==> r.code == n)
            && (cap < n && |s.toks| <= cap ==> r.code < 0)
    decreases |js| - s.pos
  {
    if !AtEnd(js, s.pos) {
      StepCounts(js, s, cap);
      CountOnlyGrows(js, s.pos, |s.toks|);
      var o, c := Step(js, s, cap), CountStep(js, s.pos);
      if c.Counted? {
        CountOnlyGrows(js, c.pos, |s.toks| + c.tokens);
      }
      if o.Next? {
        TwoPassAgreement(js, o.st, cap);
      }
    }
  }

  /** A text without tokens: spaces, colons and commas up to its end. */
  predicate Tokenless(js: string, p: nat)
    decreases |js| - p
  {
    p >= |js| || js[p] == '\0' || (js[p] in "\t\r\n :," && Tokenless(js, p + 1))
  }

  /** The texts that are accepted without a token being written are exactly these. */
  lemma {:induction false} TokenlessIsAccepted(js: string, s: State, cap: nat)
    requires Sound(s) && s.toks == [] && s.super == -1
    ensures Run(js, s, cap).code == 0 <==> Tokenless(js, s.pos)
    decreases |js| - s.pos
  {
    if !AtEnd(js, s.pos) {
      StepCounts(js, s, cap);
      var o := Step(js, s, cap);
      if o.Next? && o.st.toks == [] {
        TokenlessIsAccepted(js, o.st, cap);
      } else if o.Next? {
        TwoPassAgreement(js, o.st, cap);
        CountOnlyGrows(js, o.st.pos, |o.st.toks|);
      }
    }
  }

  /** Such a text has no tokens to count either. */
  lemma {:induction false} TokenlessHasNone(js: string, p: nat)
    requires Tokenless(js, p)
    ensures CountRun(js, p, 0) == 0
    decreases |js| - p
  {
    if !AtEnd(js, p) {
      TokenlessHasNone(js, p + 1);
    }
  }
}
