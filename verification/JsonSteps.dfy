/** What the tokenizer does with every character that is not part of a string or a primitive, in terms of the
    forest built so far; and that it refuses everything else. */
module JsonSteps {
  import opened Jsmn
  import opened TokenForest

  // ---------------------------------------------------------------- brackets

  /** Token i is the innermost open container. */
  ghost predicate Innermost(toks: seq<Token>, i: nat) {
    i < |toks| && Open(toks[i]) && forall k :: i < k < |toks| ==> !Open(toks[k])
  }

  /** Token r is the root of the last tree. */
  ghost predicate LastRoot(toks: seq<Token>, r: nat) {
    r < |toks| && toks[r].parent == -1 && forall k :: r < k < |toks| ==> toks[k].parent != -1
  }

  lemma {:induction false} WalkFinds(toks: seq<Token>, i: nat, j: nat, typ: TokenType, super: int)
    requires Linked(toks) && i <= j < |toks| && Innermost(toks, i) && Above(toks, i, j)
    ensures CloseWalk(toks, j, typ, super) == if toks[i].typ == typ then Closes(i) else Mismatch
    decreases j
  {
    if i != j {
      AboveBound(toks, i, toks[j].parent);
      WalkFinds(toks, i, toks[j].parent, typ, super);
    }
  }

  lemma {:induction false} WalkEnds(toks: seq<Token>, r: nat, j: nat, typ: TokenType, super: int)
    requires Linked(toks) && r <= j < |toks| && toks[r].parent == -1 && Above(toks, r, j)
    requires forall k :: 0 <= k < |toks| ==> !Open(toks[k])
    ensures CloseWalk(toks, j, typ, super) == if toks[r].typ == typ && super != -1 then Ignored else Mismatch
    decreases j
  {
    if r != j {
      AboveBound(toks, r, toks[j].parent);
      WalkEnds(toks, r, toks[j].parent, typ, super);
    }
  }

  lemma OpenIsAbove(s: State, i: nat)
    requires Inv(s) && i < |s.toks| && Open(s.toks[i])
    ensures Above(s.toks, i, |s.toks| - 1)
  {
    AboveBound(s.toks, s.super, |s.toks| - 1);
    AboveTransitive(s.toks, i, s.super, |s.toks| - 1);
  }

  /** A closing bracket closes the innermost open container if that is of its kind, and is refused if it is of
      the other; the closed container's parent is the superior token then. */
  lemma BracketCloses(js: string, s: State, cap: nat, i: nat)
    requires Inv(s) && s.pos < |js| && (js[s.pos] == '}' || js[s.pos] == ']') && Innermost(s.toks, i)
    ensures var typ := if js[s.pos] == '}' then Object else Array;
            Step(js, s, cap)
            == if s.toks[i].typ != typ then Stop(ERROR_INVAL)
               else Next(State(s.pos + 1, s.toks[i := s.toks[i].(end := s.pos + 1)], s.toks[i].parent))
  {
    var typ := if js[s.pos] == '}' then Object else Array;
    OpenIsAbove(s, i);
    WalkFinds(s.toks, i, |s.toks| - 1, typ, s.super);
    CloseStep(js, s, cap);
    hide Inv, Above, CloseWalk, Step;
  }

  lemma CloseStep(js: string, s: State, cap: nat)
    requires Sound(s) && s.pos < |js| && (js[s.pos] == '}' || js[s.pos] == ']')
    ensures Step(js, s, cap) == StepClose(s, if js[s.pos] == '}' then Object else Array)
  {
    hide StepClose, Linked;
  }

  /** With nothing open it is refused, unless a colon came before and the last root is of its kind; then it is
      ignored. */
  lemma BracketTooMany(js: string, s: State, cap: nat, r: nat)
    requires Inv(s) && s.pos < |js| && (js[s.pos] == '}' || js[s.pos] == ']')
    requires forall k :: 0 <= k < |s.toks| ==> !Open(s.toks[k])
    requires s.toks == [] || LastRoot(s.toks, r)
    ensures var typ := if js[s.pos] == '}' then Object else Array;
            Step(js, s, cap)
            == if s.toks != [] && s.toks[r].typ == typ && s.super != -1 then Next(s.(pos := s.pos + 1))
               else Stop(ERROR_INVAL)
  {
    CloseStep(js, s, cap);
    if s.toks != [] {
      var typ := if js[s.pos] == '}' then Object else Array;
      IntervalIsAbove(s.toks, r, |s.toks| - 1) by {
        RootInterval(s.toks, r);
      }
      WalkEnds(s.toks, r, |s.toks| - 1, typ, s.super);
    }
    hide Inv, Above, CloseWalk, Step;
  }

  /** The tokens behind the last root are its descendants. */
  lemma RootInterval(toks: seq<Token>, r: nat)
    requires Preorder(toks) && LastRoot(toks, r)
    ensures forall k :: r < k < |toks| ==> toks[k].parent >= r
  {
    forall k | r < k < |toks|
      ensures toks[k].parent >= r
    {
      BehindRoot(toks, r, k);
    }
  }

  lemma {:induction false} BehindRoot(toks: seq<Token>, r: nat, k: nat)
    requires Preorder(toks) && LastRoot(toks, r) && r < k < |toks|
    ensures toks[k].parent >= r && Above(toks, r, k)
    decreases k
  {
    assert HangsRight(toks, k);
    if k - 1 > r {
      BehindRoot(toks, r, k - 1);
    }
    assert Above(toks, r, k - 1);
    var p := toks[k].parent;
    if p < r {
      AboveBound(toks, p, k - 1);
      AboveComparable(toks, p, r, k - 1);
    } else {
      AboveComparable(toks, r, p, k - 1);
    }
  }

  // ---------------------------------------------------------------- other characters

  /** White space is skipped, a colon makes the last token the superior one, and a comma goes back from a key or
      value to its container; none of them is counted. */
  lemma PunctuationStep(js: string, s: State, cap: nat)
    requires Sound(s) && s.pos < |js| && js[s.pos] in "\t\r\n :,"
    ensures CountStep(js, s.pos) == Counted(s.pos + 1, 0)
    ensures Step(js, s, cap)
            == Next(s.(pos := s.pos + 1,
                       super := if js[s.pos] == ':' then |s.toks| - 1
                                else if js[s.pos] == ',' && s.super >= 0 && s.toks[s.super].typ !in {Object, Array}
                                then s.toks[s.super].parent
                                else s.super))
  {
    hide Linked, StepOpen, StepClose, StepString, StepPrimitive, ScanString, ScanPrimitive;
  }

  /** An opening bracket opens a container below the superior token and becomes the superior token. */
  lemma OpeningStep(js: string, s: State, cap: nat)
    requires Sound(s) && s.pos < |js| && js[s.pos] in "{["
    ensures CountStep(js, s.pos) == Counted(s.pos + 1, 1)
    ensures var o := Step(js, s, cap);
            if |s.toks| >= cap then o == Stop(ERROR_NOMEM)
            else
              && o.Next? && o.st.pos == s.pos + 1 && o.st.super == |s.toks| == |o.st.toks| - 1
              && o.st.toks[|s.toks|] == Token(if js[s.pos] == '{' then Object else Array, s.pos, -1, 0, s.super)
              && forall i :: 0 <= i < |s.toks| ==>
                 o.st.toks[i] == if i == s.super then s.toks[i].(size := s.toks[i].size + 1) else s.toks[i]
  {
    hide Linked, StepClose, StepString, StepPrimitive, ScanString, ScanPrimitive;
  }

  /** Any other character than these, a quote, a closing bracket or the beginning of a primitive is refused by both
      passes. */
  lemma OtherRefused(js: string, s: State, cap: nat)
    requires Sound(s) && s.pos < |js| && js[s.pos] !in "\t\r\n :,{[]}\"-0123456789tfn"
    ensures Step(js, s, cap) == Stop(ERROR_INVAL) && CountStep(js, s.pos) == CountStop(ERROR_INVAL)
  {
    var c, known := js[s.pos], "\t\r\n :,{[]}\"-0123456789tfn";
    hide Linked, StepOpen, StepClose, StepString, StepPrimitive, ScanString, ScanPrimitive;
    forall k | 0 <= k < |known|
      ensures c != known[k]
    {
      assert known[k] in known;
    }
    assert known[0] == '\t' && known[1] == '\r' && known[2] == '\n' && known[3] == ' ' && known[4] == ':';
    assert known[5] == ',' && known[6] == '{' && known[7] == '[' && known[8] == ']' && known[9] == '}';
    assert known[10] == '\"' && known[11] == '-' && known[12] == '0' && known[13] == '1' && known[14] == '2';
    assert known[15] == '3' && known[16] == '4' && known[17] == '5' && known[18] == '6' && known[19] == '7';
    assert known[20] == '8' && known[21] == '9' && known[22] == 't' && known[23] == 'f' && known[24] == 'n';
  }
}
