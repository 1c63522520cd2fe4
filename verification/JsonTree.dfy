/** The JSON document that a token forest stands for, read off the parent links. */
module JsonTree {
  import opened Jsmn
  import opened TokenForest

  datatype Member = Member(name: string, value: Json)
  datatype Json = Str(text: string) | Prim(text: string) | Obj(members: seq<Member>) | Arr(elems: seq<Json>)

  datatype Option<T> = None | Some(value: T)

  /** The first member of that name. */
  function Lookup(ms: seq<Member>, key: string): (r: Option<Json>) {
    if ms == [] then None
    else if ms[0].name == key then Some(ms[0].value)
    else Lookup(ms[1..], key)
  }

  // ---------------------------------------------------------------- extent of a node

  /** The first token from j on that does not belong to the node i. */
  function EndFrom(toks: seq<Token>, i: nat, j: nat): (e: nat)
    requires i < j <= |toks|
    ensures j <= e <= |toks|
    ensures forall k :: j <= k < e ==> toks[k].parent >= i
    ensures e < |toks| ==> toks[e].parent < i
    decreases |toks| - j
  {
    if j == |toks| || toks[j].parent < i then j else EndFrom(toks, i, j + 1)
  }

  /** One past the last token of node i. */
  function End(toks: seq<Token>, i: nat): (e: nat)
    requires i < |toks|
    ensures i < e <= |toks|
  {
    EndFrom(toks, i, i + 1)
  }

  /** The node i is exactly the interval of its descendants. */
  lemma EndIsLastDescendant(toks: seq<Token>, i: nat)
    requires Preorder(toks) && i < |toks|
    ensures forall j :: i <= j < |toks| ==> (Above(toks, i, j) <==> j < End(toks, i))
  {
    forall j | i <= j < |toks|
      ensures Above(toks, i, j) <==> j < End(toks, i)
    {
      if j < End(toks, i) {
        IntervalIsAbove(toks, i, j);
      } else if Above(toks, i, j) {
        AboveIsInterval(toks, i, j);
      }
    }
  }

  /** p is where a child of i starts, or where i ends. */
  ghost predicate ChildSlot(toks: seq<Token>, i: nat, p: nat)
    requires i < |toks|
  {
    p == End(toks, i) || (i < p < End(toks, i) && toks[p].parent == i)
  }

  lemma FirstChild(toks: seq<Token>, i: nat)
    requires Linked(toks) && i < |toks|
    ensures ChildSlot(toks, i, i + 1) && ChildCount(toks, i, i + 1) == 0
  {
    NoChildren(toks, i, i + 1);
  }

  lemma {:induction false} CountConstant(toks: seq<Token>, a: int, n: nat, m: nat)
    requires n <= m <= |toks| && forall k :: n <= k < m ==> toks[k].parent != a
    ensures ChildCount(toks, a, m) == ChildCount(toks, a, n)
    decreases m
  {
    if n < m {
      CountConstant(toks, a, n, m - 1);
    }
  }

  lemma {:induction false} CountMonotone(toks: seq<Token>, a: int, n: nat, m: nat)
    requires n <= m <= |toks|
    ensures ChildCount(toks, a, n) <= ChildCount(toks, a, m)
    decreases m
  {
    if n < m {
      CountMonotone(toks, a, n, m - 1);
    }
  }

  lemma ChildInside(toks: seq<Token>, i: nat, c: nat)
    requires Preorder(toks) && i < |toks| && c < |toks| && toks[c].parent == i
    ensures i < c && c < End(toks, c) <= End(toks, i)
  {
    assert Above(toks, i, i) && Above(toks, i, c);
    EndIsLastDescendant(toks, i);
    var e := End(toks, i);
    assert e == |toks| || toks[e].parent < i;
  }

  /** After a child comes its next sibling or the end of the parent, and one more child is counted. */
  lemma NextChild(toks: seq<Token>, i: nat, c: nat)
    requires Preorder(toks) && i < |toks| && c < |toks| && toks[c].parent == i
    ensures i < c < End(toks, c) <= End(toks, i) && ChildSlot(toks, i, End(toks, c))
    ensures ChildCount(toks, i, End(toks, c)) == ChildCount(toks, i, c) + 1
  {
    ChildInside(toks, i, c);
    CountConstant(toks, i, c + 1, End(toks, c));
    hide Above, ChildCount;
    if End(toks, c) < End(toks, i) {
      NextSibling(toks, i, c);
    }
  }

  lemma NextSibling(toks: seq<Token>, i: nat, c: nat)
    requires Preorder(toks) && i < c < |toks| && toks[c].parent == i && End(toks, c) < End(toks, i)
    ensures toks[End(toks, c)].parent == i
  {
    var e := End(toks, c);
    EndIsLastDescendant(toks, c);
    assert HangsRight(toks, e);
    hide End, HangsRight, Preorder;
    EndParent(toks, i, c);
    AboveBound(toks, toks[e].parent, e - 1);
    AboveComparable(toks, toks[e].parent, c, e - 1);
    assert Above(toks, toks[e].parent, i);
    AboveBound(toks, toks[e].parent, i);
  }

  lemma EndParent(toks: seq<Token>, i: nat, c: nat)
    requires Preorder(toks) && i < c < |toks| && End(toks, c) < End(toks, i)
    ensures i <= toks[End(toks, c)].parent < c
  {
  }

  /** Counting children tells whether there is one more. */
  lemma MoreChildren(toks: seq<Token>, i: nat, p: nat)
    requires Forest(toks) && i < |toks| && ChildSlot(toks, i, p)
    ensures ChildCount(toks, i, p) <= toks[i].size
    ensures ChildCount(toks, i, p) < toks[i].size <==> p < End(toks, i)
  {
    if p < End(toks, i) {
      CountMonotone(toks, i, p + 1, |toks|);
    } else {
      forall k | p <= k < |toks|
        ensures toks[k].parent != i
      {
        if toks[k].parent == i {
          ChildInside(toks, i, k);
        }
      }
      CountConstant(toks, i, p, |toks|);
    }
  }

  /** A token with exactly one child: the child follows it and fills it. */
  lemma OnlyChild(toks: seq<Token>, k: nat)
    requires Forest(toks) && k < |toks| && toks[k].size == 1
    ensures k + 1 < |toks| && toks[k + 1].parent == k
    ensures End(toks, k) == End(toks, k + 1)
    ensures forall j :: 0 <= j < |toks| && toks[j].parent == k ==> j == k + 1
  {
    FirstChild(toks, k);
    MoreChildren(toks, k, k + 1);
    NextChild(toks, k, k + 1);
    MoreChildren(toks, k, End(toks, k + 1));
    forall j | 0 <= j < |toks| && toks[j].parent == k
      ensures j == k + 1
    {
      ChildInside(toks, k, j);
    }
  }

  lemma Childless(toks: seq<Token>, k: nat)
    requires Forest(toks) && k < |toks| && toks[k].size == 0
    ensures forall j :: 0 <= j < |toks| ==> toks[j].parent != k
    ensures End(toks, k) == k + 1
  {
    FirstChild(toks, k);
    MoreChildren(toks, k, k + 1);
    forall j | 0 <= j < |toks|
      ensures toks[j].parent != k
    {
      if toks[j].parent == k {
        ChildInside(toks, k, j);
      }
    }
  }

  // ---------------------------------------------------------------- walking by count

  /** A counting walk over the children of i has got to p and has cnt children to go. */
  ghost predicate Walked(toks: seq<Token>, i: nat, p: nat, cnt: int) {
    && i < |toks| && i < p && ChildSlot(toks, i, p)
    && 0 <= cnt == toks[i].size - ChildCount(toks, i, p)
  }

  lemma WalkStarts(toks: seq<Token>, i: nat)
    requires Forest(toks) && i < |toks|
    ensures Walked(toks, i, i + 1, toks[i].size)
  {
    FirstChild(toks, i);
    MoreChildren(toks, i, i + 1);
  }

  lemma WalkAdvances(toks: seq<Token>, i: nat, p: nat, cnt: int)
    requires Forest(toks) && Walked(toks, i, p, cnt) && cnt != 0
    ensures p < |toks| && toks[p].parent == i
    ensures Walked(toks, i, End(toks, p), cnt - 1)
    ensures forall c :: p < c < End(toks, p) ==> toks[c].parent != i
  {
    MoreChildren(toks, i, p);
    NextChild(toks, i, p);
    MoreChildren(toks, i, End(toks, p));
  }

  lemma WalkEnds(toks: seq<Token>, i: nat, p: nat)
    requires Forest(toks) && Walked(toks, i, p, 0)
    ensures p == End(toks, i)
    ensures forall c :: p <= c < |toks| ==> toks[c].parent != i
  {
    MoreChildren(toks, i, p);
    forall c | p <= c < |toks|
      ensures toks[c].parent != i
    {
      if toks[c].parent == i {
        ChildInside(toks, i, c);
      }
    }
  }

  // ---------------------------------------------------------------- validity

  /** Every child of an object is a string key with exactly one value below it; array elements
      and values are containers that are valid themselves, or leaves; children end inside. */
  ghost predicate ValidNode(toks: seq<Token>, i: nat, typ: TokenType)
    requires i < |toks|
    decreases |toks| - i, 0
  {
    toks[i].typ == typ && forall c :: i < c < |toks| && toks[c].parent == i ==> ValidChild(toks, i, c)
  }

  ghost predicate ValidChild(toks: seq<Token>, i: nat, c: nat)
    requires i < c < |toks|
    decreases |toks| - c, 2
  {
    && toks[c].end <= toks[i].end
    && if toks[i].typ.Object? then
         toks[c].typ.String? && toks[c].size == 1 && c + 1 < |toks| && ValidValue(toks, c + 1)
       else
         ValidValue(toks, c)
  }

  ghost predicate ValidValue(toks: seq<Token>, v: nat)
    requires v < |toks|
    decreases |toks| - v, 1
  {
    if Container(toks[v].typ) then ValidNode(toks, v, toks[v].typ) else toks[v].size == 0
  }

  /** What holds of any token below a valid container: it is a valid container, a key of an
      object, or a leaf. */
  ghost predicate Placed(toks: seq<Token>, j: nat)
    requires Linked(toks) && j < |toks|
  {
    if Container(toks[j].typ) then ValidNode(toks, j, toks[j].typ)
    else toks[j].size == 0
         || (toks[j].parent >= 0 && toks[toks[j].parent].typ.Object? && ValidChild(toks, toks[j].parent, j))
  }

  lemma {:induction false} ValidBelow(toks: seq<Token>, i: nat, j: nat)
    requires Forest(toks) && i < |toks| && j < |toks|
    requires Container(toks[i].typ) && ValidNode(toks, i, toks[i].typ) && Above(toks, i, j)
    ensures Placed(toks, j)
    decreases j
  {
    if i != j {
      var p := toks[j].parent;
      ValidBelow(toks, i, p);
      if Container(toks[p].typ) {
        assert ValidChild(toks, p, j);
        assert toks[p].typ.Array? ==> ValidValue(toks, j);
      } else if toks[p].size == 0 {
        Childless(toks, p);
      } else {
        assert ValidChild(toks, toks[p].parent, p);
        assert ValidValue(toks, p + 1);
        OnlyChild(toks, p);
      }
    }
  }

  /** What a token must be like, by its parent: in an object a string with exactly one token below it; in an array,
      or below a key, a container, or anything else without a token below it. */
  predicate Proper(toks: seq<Token>, j: nat)
    requires j < |toks| && 0 <= toks[j].parent < |toks|
  {
    var t, p := toks[j], toks[toks[j].parent];
    && (p.typ == Object || p.typ == Array ==> t.end <= p.end)
    && if p.typ == Object then t.typ == String && t.size == 1
       else t.typ == Object || t.typ == Array || t.size == 0
  }

  ghost predicate AllProper(toks: seq<Token>, i: nat)
    requires Linked(toks)
  {
    forall j :: i < j < |toks| && Above(toks, i, j) ==> toks[j].parent >= 0 && Proper(toks, j)
  }

  /** A container is valid if and only if every single token below it is proper. */
  lemma ValidIsProper(toks: seq<Token>, i: nat)
    requires Forest(toks) && i < |toks| && Container(toks[i].typ)
    ensures ValidNode(toks, i, toks[i].typ) <==> AllProper(toks, i)
  {
    if ValidNode(toks, i, toks[i].typ) {
      forall j | i < j < |toks| && Above(toks, i, j)
        ensures toks[j].parent >= 0 && Proper(toks, j)
      {
        AboveBound(toks, i, toks[j].parent);
        BelowIsProper(toks, i, j);
      }
    }
    if AllProper(toks, i) {
      ProperIsValid(toks, i);
    }
  }

  lemma BelowIsProper(toks: seq<Token>, i: nat, j: nat)
    requires Forest(toks) && i < j < |toks| && toks[j].parent >= 0 && Above(toks, i, toks[j].parent)
    requires Container(toks[i].typ) && ValidNode(toks, i, toks[i].typ)
    ensures Proper(toks, j)
  {
    var p := toks[j].parent;
    ValidBelow(toks, i, p);
    hide Forest, Above;
    if Container(toks[p].typ) {
      assert ValidChild(toks, p, j);
      assert toks[p].typ.Array? ==> ValidValue(toks, j);
    } else if toks[p].size == 0 {
      Childless(toks, p);
    } else {
      assert ValidChild(toks, toks[p].parent, p);
      OnlyChild(toks, p);
      assert j == p + 1 && ValidValue(toks, j);
    }
  }

  lemma ChildProper(toks: seq<Token>, i: nat, k: nat, c: nat)
    requires Linked(toks) && i <= k < c < |toks| && Above(toks, i, k) && toks[c].parent == k && AllProper(toks, i)
    ensures Above(toks, i, c) && Proper(toks, c) && AllProper(toks, c)
  {
    forall j | c < j < |toks| && Above(toks, c, j)
      ensures Above(toks, i, j)
    {
      AboveTransitive(toks, i, c, j);
    }
  }

  lemma {:induction false} ProperIsValid(toks: seq<Token>, i: nat)
    requires Forest(toks) && i < |toks| && Container(toks[i].typ) && AllProper(toks, i)
    ensures ValidNode(toks, i, toks[i].typ)
    decreases |toks| - i
  {
    forall c | i < c < |toks| && toks[c].parent == i
      ensures ValidChild(toks, i, c)
    {
      ChildProper(toks, i, i, c);
      var v := c;
      if toks[i].typ.Object? {
        OnlyChild(toks, c);
        v := c + 1;
        ChildProper(toks, i, c, v);
      }
      if Container(toks[v].typ) {
        ProperIsValid(toks, v);
      }
    }
  }

  // ---------------------------------------------------------------- the document

  /** A finished parse: a forest whose tokens are closed ranges of the text. */
  ghost predicate Parsed(js: string, toks: seq<Token>) {
    && Forest(toks)
    && forall i :: 0 <= i < |toks| ==> WellShaped(toks[i], |js|) && !Open(toks[i])
  }

  function Text(js: string, t: Token): (s: string)
    requires 0 <= t.start <= t.end <= |js|
  {
    js[t.start..t.end]
  }

  /** The value at token v. */
  ghost function ValueAt(js: string, toks: seq<Token>, v: nat): (d: Json)
    requires Parsed(js, toks) && v < |toks| && ValidValue(toks, v)
    ensures (d.Obj? <==> toks[v].typ.Object?) && (d.Obj? ==> |d.members| == toks[v].size)
    ensures (d.Arr? <==> toks[v].typ.Array?) && (d.Arr? ==> |d.elems| == toks[v].size)
    decreases |toks| - v, 0
  {
    WalkStarts(toks, v);
    if toks[v].typ.Object? then Obj(MembersAhead(js, toks, v, v + 1, toks[v].size))
    else if toks[v].typ.Array? then Arr(ElemsAhead(js, toks, v, v + 1, toks[v].size))
    else if toks[v].typ.String? then Str(Text(js, toks[v]))
    else Prim(Text(js, toks[v]))
  }

  /** The members of object i that a counting walk has still to visit: a key, the value below
      it, and so on behind that value. */
  ghost function MembersAhead(js: string, toks: seq<Token>, i: nat, p: nat, cnt: int): (ms: seq<Member>)
    requires Parsed(js, toks) && Walked(toks, i, p, cnt) && ValidNode(toks, i, Object)
    ensures |ms| == cnt
    decreases |toks| - p, 1, cnt
  {
    if cnt == 0 then []
    else
      KeyAhead(toks, i, p, cnt);
      [Member(Text(js, toks[p]), ValueAt(js, toks, p + 1))]
      + MembersAhead(js, toks, i, End(toks, p + 1), cnt - 1)
  }

  /** The elements of array i that a counting walk has still to visit. */
  ghost function ElemsAhead(js: string, toks: seq<Token>, i: nat, p: nat, cnt: int): (es: seq<Json>)
    requires Parsed(js, toks) && Walked(toks, i, p, cnt) && ValidNode(toks, i, Array)
    ensures |es| == cnt
    decreases |toks| - p, 1, cnt
  {
    if cnt == 0 then []
    else
      ElemAhead(toks, i, p, cnt);
      [ValueAt(js, toks, p)] + ElemsAhead(js, toks, i, End(toks, p), cnt - 1)
  }

  lemma KeyAhead(toks: seq<Token>, i: nat, p: nat, cnt: int)
    requires Forest(toks) && Walked(toks, i, p, cnt) && cnt != 0 && ValidNode(toks, i, Object)
    ensures p + 1 < |toks| && toks[p].parent == i && toks[p + 1].parent == p
    ensures toks[p].typ.String? && toks[p].end <= toks[i].end && ValidValue(toks, p + 1)
    ensures Walked(toks, i, End(toks, p + 1), cnt - 1)
  {
    WalkAdvances(toks, i, p, cnt);
    assert ValidChild(toks, i, p);
    OnlyChild(toks, p);
  }

  lemma ElemAhead(toks: seq<Token>, i: nat, p: nat, cnt: int)
    requires Forest(toks) && Walked(toks, i, p, cnt) && cnt != 0 && ValidNode(toks, i, Array)
    ensures p < |toks| && toks[p].parent == i
    ensures toks[p].end <= toks[i].end && ValidValue(toks, p)
    ensures Walked(toks, i, End(toks, p), cnt - 1)
  {
    WalkAdvances(toks, i, p, cnt);
    assert ValidChild(toks, i, p);
  }
}
