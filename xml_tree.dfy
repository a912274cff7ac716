// Documents as trees, and the event streams a pull parser reports for them.
//
// These definitions are the reference against which the cursor-level readers are
// proved: a serialized element is exactly the span from its start tag to the end
// tag that `Closes` it.

module XmlTree {
  import opened XmlPull

  datatype Node =
    | Element(name: string, attrs: map<string, string>, children: seq<Node>)
    | TextNode(text: string)

  /**
   * What `getAttributeValue` answers at an end tag: nothing, or (as kxml does) the
   * attributes of a self-closed element's start tag.
   */
  datatype EndAttrs = NoEndAttrs | SelfClosedKeepsAttrs

  function EndAttrsOf(attrs: map<string, string>, children: seq<Node>, mode: EndAttrs): map<string, string> {
    if mode == SelfClosedKeepsAttrs && children == [] then attrs else map[]
  }

  function EndTagOf(name: string, attrs: map<string, string>, children: seq<Node>, mode: EndAttrs): Event {
    EndTag(name, EndAttrsOf(attrs, children, mode))
  }

  function Ser(n: Node, mode: EndAttrs): (r: seq<Event>)
    ensures |r| >= 1
    decreases n, 1
  {
    match n
    case TextNode(t) => [Text(t)]
    case Element(nm, at, ch) => [StartTag(nm, at)] + SerAll(ch, mode) + [EndTagOf(nm, at, ch, mode)]
  }

  function SerAll(ns: seq<Node>, mode: EndAttrs): seq<Event>
    decreases ns, 0
  {
    if ns == [] then [] else Ser(ns[0], mode) + SerAll(ns[1..], mode)
  }

  /** A whole document: the root element followed by END_DOCUMENT. */
  function Document(root: Node, mode: EndAttrs): seq<Event> {
    Ser(root, mode) + [EndDoc]
  }

  lemma {:induction false} SerAllCons(n: Node, ns: seq<Node>, mode: EndAttrs)
    ensures SerAll([n] + ns, mode) == Ser(n, mode) + SerAll(ns, mode)
  {
    assert ([n] + ns)[1..] == ns;
  }

  lemma {:induction false} SerAllAppend(a: seq<Node>, b: seq<Node>, mode: EndAttrs)
    ensures SerAll(a + b, mode) == SerAll(a, mode) + SerAll(b, mode)
    decreases |a|
  {
    if a == [] {
      assert a + b == b;
    } else {
      assert (a + b)[0] == a[0];
      assert (a + b)[1..] == a[1..] + b;
      SerAllAppend(a[1..], b, mode);
    }
  }

  lemma {:induction false} SerLive(n: Node, mode: EndAttrs)
    ensures forall i | 0 <= i < |Ser(n, mode)| :: !Ser(n, mode)[i].EndDoc?
    decreases n, 1
  {
    if n.Element? {
      SerAllLive(n.children, mode);
    }
  }

  lemma {:induction false} SerAllLive(ns: seq<Node>, mode: EndAttrs)
    ensures forall i | 0 <= i < |SerAll(ns, mode)| :: !SerAll(ns, mode)[i].EndDoc?
    decreases ns, 0
  {
    if ns != [] {
      SerLive(ns[0], mode);
      SerAllLive(ns[1..], mode);
    }
  }

  /**
   * A serialized element leaves the depth where it found it, and every proper,
   * non-empty prefix of it stays inside the element.
   */
  lemma {:induction false} SerBalance(n: Node, mode: EndAttrs)
    ensures Balance(Ser(n, mode)) == 0
    ensures n.Element? ==> forall i | 1 <= i < |Ser(n, mode)| :: Balance(Ser(n, mode)[..i]) >= 1
    decreases n, 1
  {
    if n.Element? {
      var s := [StartTag(n.name, n.attrs)];
      var a := SerAll(n.children, mode);
      var e := [EndTagOf(n.name, n.attrs, n.children, mode)];
      SerAllBalance(n.children, mode);
      BalanceConcat(s + a, e);
      BalanceConcat(s, a);
      assert Balance(s) == 1 by { assert s[..0] == []; }
      assert Balance(e) == -1 by { assert e[..0] == []; }
      forall i | 1 <= i < |Ser(n, mode)|
        ensures Balance(Ser(n, mode)[..i]) >= 1
      {
        assert Ser(n, mode)[..i] == s + a[..i - 1];
        BalanceConcat(s, a[..i - 1]);
      }
    } else {
      assert Ser(n, mode)[..0] == [];
    }
  }

  lemma {:induction false} SerAllBalance(ns: seq<Node>, mode: EndAttrs)
    ensures Balance(SerAll(ns, mode)) == 0
    ensures forall i | 0 <= i <= |SerAll(ns, mode)| :: Balance(SerAll(ns, mode)[..i]) >= 0
    decreases ns, 0
  {
    if ns != [] {
      var h := Ser(ns[0], mode);
      var t := SerAll(ns[1..], mode);
      SerBalance(ns[0], mode);
      SerAllBalance(ns[1..], mode);
      BalanceConcat(h, t);
      forall i | 0 <= i <= |SerAll(ns, mode)|
        ensures Balance(SerAll(ns, mode)[..i]) >= 0
      {
        if i <= |h| {
          assert SerAll(ns, mode)[..i] == h[..i];
          if i == 0 {
            assert h[..i] == [];
          } else if i == |h| {
            assert h[..i] == h;
          } else if ns[0].TextNode? {
            assert false;
          }
        } else {
          assert SerAll(ns, mode)[..i] == h + t[..i - |h|];
          BalanceConcat(h, t[..i - |h|]);
        }
      }
    }
  }

  /** A slice of the event stream is a serialized node. */
  predicate At(evs: seq<Event>, a: nat, s: seq<Event>) {
    a + |s| <= |evs| && forall i | 0 <= i < |s| :: evs[a + i] == s[i]
  }

  /** The balance of a prefix, split after its first event. */
  lemma BalanceFirst(s: seq<Event>, j: nat)
    requires 1 <= j <= |s|
    ensures Balance(s[..j]) == Delta(s[0]) + Balance(s[1..j])
  {
    assert s[..j] == [s[0]] + s[1..j];
    BalanceConcat([s[0]], s[1..j]);
    assert [s[0]][..0] == [];
  }

  lemma AtSlice(evs: seq<Event>, a: nat, s: seq<Event>, i: nat, k: nat)
    requires At(evs, a, s) && i <= k <= |s|
    ensures evs[a + i..a + k] == s[i..k]
  {
    forall m | 0 <= m < k - i
      ensures evs[a + i..a + k][m] == s[i..k][m]
    {
      assert evs[a + (i + m)] == s[i + m];
    }
  }

  /** Inside a span laid out from `a`, the depth is the depth at `a` plus the span's balance. */
  lemma SpanOpen(evs: seq<Event>, a: nat, s: seq<Event>, j: nat)
    requires At(evs, a, s) && 1 <= j <= |s|
    ensures Open(evs, a + j - 1) == Open(evs, a) - Delta(s[0]) + Balance(s[..j])
  {
    OpenRange(evs, a, a + j - 1);
    AtSlice(evs, a, s, 1, j);
    BalanceFirst(s, j);
  }

  /** A span that opens, stays open and finally closes is closed by its last event. */
  lemma SpanCloses(evs: seq<Event>, a: nat, s: seq<Event>)
    requires At(evs, a, s) && |s| >= 2 && s[0].StartTag? && s[|s| - 1].EndTag?
    requires Balance(s) == 0
    requires forall i | 1 <= i < |s| :: Balance(s[..i]) >= 1
    requires forall i | 0 <= i < |s| :: !s[i].EndDoc?
    ensures Closes(evs, a, a + |s| - 1)
  {
    var e := a + |s| - 1;
    assert evs[a + 0] == s[0];
    assert evs[a + (|s| - 1)] == s[|s| - 1];
    SpanOpen(evs, a, s, |s|);
    assert s[..|s|] == s;
    forall i | a <= i < e
      ensures Open(evs, i) >= Open(evs, a)
    {
      SpanOpen(evs, a, s, i - a + 1);
    }
    forall i | a <= i < e
      ensures !evs[i].EndDoc?
    {
      assert evs[a + (i - a)] == s[i - a];
    }
  }

  /** The end tag of a serialized element closes its start tag. */
  lemma ElementCloses(evs: seq<Event>, a: nat, n: Node, mode: EndAttrs)
    requires n.Element? && At(evs, a, Ser(n, mode))
    ensures Closes(evs, a, a + |Ser(n, mode)| - 1)
  {
    var s := Ser(n, mode);
    SerBalance(n, mode);
    SerLive(n, mode);
    assert s[0].StartTag? && s[|s| - 1].EndTag?;
    SpanCloses(evs, a, s);
  }

  /** A serialized text node is one event at the depth it is found at. */
  lemma TextStays(evs: seq<Event>, a: nat, n: Node, mode: EndAttrs)
    requires n.TextNode? && At(evs, a, Ser(n, mode)) && a > 0
    ensures evs[a] == Text(n.text) && Open(evs, a) == Open(evs, a - 1)
  {
    assert evs[a] == Ser(n, mode)[0];
  }

  // ---------------------------------------------------------------------------
  // Streams of subtrees and loose end tags

  /**
   * What is left of a document once a reader stands inside it: whole subtrees,
   * and end tags of elements whose start tags were read earlier.
   */
  datatype Piece = Whole(node: Node) | Loose(name: string, attrs: map<string, string>)

  function PieceSer(c: Piece, mode: EndAttrs): (r: seq<Event>)
    ensures |r| >= 1
  {
    match c
    case Whole(n) => Ser(n, mode)
    case Loose(nm, at) => [EndTag(nm, at)]
  }

  function PSer(ps: seq<Piece>, mode: EndAttrs): seq<Event> {
    if ps == [] then [] else PieceSer(ps[0], mode) + PSer(ps[1..], mode)
  }

  function Wholes(ns: seq<Node>): (r: seq<Piece>)
    ensures |r| == |ns| && forall i | 0 <= i < |ns| :: r[i] == Whole(ns[i])
  {
    if ns == [] then [] else [Whole(ns[0])] + Wholes(ns[1..])
  }

  lemma {:induction false} PSerCons(c: Piece, ps: seq<Piece>, mode: EndAttrs)
    ensures PSer([c] + ps, mode) == PieceSer(c, mode) + PSer(ps, mode)
  {
    assert ([c] + ps)[1..] == ps;
  }

  lemma {:induction false} PSerAppend(a: seq<Piece>, b: seq<Piece>, mode: EndAttrs)
    ensures PSer(a + b, mode) == PSer(a, mode) + PSer(b, mode)
    decreases |a|
  {
    if a == [] {
      assert a + b == b;
    } else {
      assert (a + b)[0] == a[0];
      assert (a + b)[1..] == a[1..] + b;
      PSerAppend(a[1..], b, mode);
    }
  }

  lemma {:induction false} PSerWholes(ns: seq<Node>, mode: EndAttrs)
    ensures PSer(Wholes(ns), mode) == SerAll(ns, mode)
    decreases |ns|
  {
    if ns != [] {
      assert Wholes(ns)[1..] == Wholes(ns[1..]);
      PSerWholes(ns[1..], mode);
    }
  }

  /**
   * The pieces left after one more `next()`: a text or a loose end tag is gone,
   * and an element is opened into its children and its end tag.
   */
  function DropOne(ps: seq<Piece>, mode: EndAttrs): seq<Piece>
    requires ps != []
  {
    match ps[0]
    case Loose(_, _) => ps[1..]
    case Whole(n) =>
      match n
      case TextNode(_) => ps[1..]
      case Element(nm, at, ch) => Wholes(ch) + [Loose(nm, EndAttrsOf(at, ch, mode))] + ps[1..]
  }

  lemma DropOneSer(ps: seq<Piece>, mode: EndAttrs)
    requires ps != []
    ensures PSer(DropOne(ps, mode), mode) == PSer(ps, mode)[1..]
  {
    PSerCons(ps[0], ps[1..], mode);
    assert ps == [ps[0]] + ps[1..];
    if ps[0].Whole? && ps[0].node.Element? {
      OpenElementSer(ps[0].node, ps[1..], mode);
    }
  }

  lemma OpenElementSer(n: Node, r: seq<Piece>, mode: EndAttrs)
    requires n.Element?
    ensures PSer(Wholes(n.children) + [Loose(n.name, EndAttrsOf(n.attrs, n.children, mode))] + r, mode)
         == (Ser(n, mode) + PSer(r, mode))[1..]
  {
    var end := Loose(n.name, EndAttrsOf(n.attrs, n.children, mode));
    PSerAppend(Wholes(n.children) + [end], r, mode);
    ChildrenThenEnd(n, mode);
    ElementTail(n, PSer(r, mode), mode);
  }

  lemma ChildrenThenEnd(n: Node, mode: EndAttrs)
    requires n.Element?
    ensures PSer(Wholes(n.children) + [Loose(n.name, EndAttrsOf(n.attrs, n.children, mode))], mode)
         == SerAll(n.children, mode) + [EndTagOf(n.name, n.attrs, n.children, mode)]
  {
    var end := Loose(n.name, EndAttrsOf(n.attrs, n.children, mode));
    PSerAppend(Wholes(n.children), [end], mode);
    PSerWholes(n.children, mode);
    PSerCons(end, [], mode);
  }

  lemma ElementTail(n: Node, rest: seq<Event>, mode: EndAttrs)
    requires n.Element?
    ensures (Ser(n, mode) + rest)[1..] == SerAll(n.children, mode) + [EndTagOf(n.name, n.attrs, n.children, mode)] + rest
  {
  }

  /** The pieces, laid out in `evs` from position `a` on. */
  predicate PiecesAt(evs: seq<Event>, a: nat, ps: seq<Piece>, mode: EndAttrs) {
    At(evs, a, PSer(ps, mode))
  }

  lemma PiecesAtCons(evs: seq<Event>, a: nat, ps: seq<Piece>, mode: EndAttrs)
    requires ps != [] && PiecesAt(evs, a, ps, mode)
    ensures At(evs, a, PieceSer(ps[0], mode))
    ensures PiecesAt(evs, a + |PieceSer(ps[0], mode)|, ps[1..], mode)
  {
    var h := PieceSer(ps[0], mode);
    var t := PSer(ps[1..], mode);
    assert PSer(ps, mode) == h + t;
    AtConcat(evs, a, h, t);
  }

  /** A laid-out concatenation is its two halves laid out one after the other. */
  lemma AtConcat(evs: seq<Event>, a: nat, h: seq<Event>, t: seq<Event>)
    requires At(evs, a, h + t)
    ensures At(evs, a, h) && At(evs, a + |h|, t)
  {
    forall i | 0 <= i < |h|
      ensures evs[a + i] == h[i]
    {
      assert evs[a + i] == (h + t)[i];
    }
    forall i | 0 <= i < |t|
      ensures evs[a + |h| + i] == t[i]
    {
      assert evs[a + (|h| + i)] == (h + t)[|h| + i];
    }
  }
}
