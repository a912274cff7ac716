// The XmlPullParser event stream, as seen by the feed and OPML readers.
//
// A parser is modelled by the sequence of events it reports after START_DOCUMENT
// and by a cursor (an index into that sequence).  `next()` moves the cursor by one;
// running past the last event, or past END_DOCUMENT, is the parser's
// XmlPullParserException (a parser that reports END_DOCUMENT has closed every
// element, so no reader that accepts a document gets there).
//
// An END_TAG carries the attributes that `getAttributeValue` answers at that end
// tag: pull parsers differ here (kxml answers with the start tag's attributes for a
// self-closed element, others answer nothing), so the model keeps it explicit.

module XmlPull {
  import opened JavaLang

  datatype Event =
    | StartTag(name: string, attrs: map<string, string>)
    | EndTag(name: string, attrs: map<string, string>)
    | Text(text: string)
    | EndDoc

  /** The exceptions the readers can end with; `Diverges` stands for a loop that never ends. */
  datatype ParseError = XmlError | IllegalState | NullPointer | Diverges

  datatype Result<T> = Ok(value: T) | Err(error: ParseError) {
    predicate IsFailure() { Err? }
    function PropagateFailure<U>(): Result<U>
      requires Err?
    {
      Err(error)
    }
    function Extract(): T
      requires Ok?
    {
      value
    }
  }

  predicate IsTag(e: Event) { e.StartTag? || e.EndTag? }

  /** `getAttributeValue(null, key)`: null is `None`. */
  function Attr(e: Event, key: string): (r: Option<string>)
    ensures r.Some? <==> IsTag(e) && key in e.attrs
    ensures r.Some? ==> r.value == e.attrs[key]
  {
    if IsTag(e) && key in e.attrs then Some(e.attrs[key]) else None
  }

  /** XML white space (section 2.3 of the XML 1.0 recommendation). */
  predicate IsXmlSpace(c: char) { c == ' ' || c == '\t' || c == '\r' || c == '\n' }

  predicate IsSpaceText(e: Event) {
    e.Text? && forall i | 0 <= i < |e.text| :: IsXmlSpace(e.text[i])
  }

  /** The values of `r` after `xs`, or the error of `r`. */
  function Prepend<T>(xs: seq<T>, r: Result<seq<T>>): Result<seq<T>> {
    if r.Err? then r else Ok(xs + r.value)
  }

  lemma PrependEmpty<T>(r: Result<seq<T>>)
    ensures Prepend([], r) == r
  {
    if r.Ok? {
      assert [] + r.value == r.value;
    }
  }

  lemma PrependPrepend<T>(xs: seq<T>, ys: seq<T>, r: Result<seq<T>>)
    ensures Prepend(xs, Prepend(ys, r)) == Prepend(xs + ys, r)
  {
    if r.Ok? {
      assert xs + (ys + r.value) == (xs + ys) + r.value;
    }
  }

  // ---------------------------------------------------------------------------
  // Depth

  function Delta(e: Event): int {
    if e.StartTag? then 1 else if e.EndTag? then -1 else 0
  }

  /** Number of elements open once event `q` has been read. */
  function Open(evs: seq<Event>, q: nat): int
    requires q < |evs|
  {
    (if q == 0 then 0 else Open(evs, q - 1)) + Delta(evs[q])
  }

  /** `getDepth()` at event `q`: an end tag still counts its own element. */
  function Depth(evs: seq<Event>, q: nat): int
    requires q < |evs|
  {
    Open(evs, q) + (if evs[q].EndTag? then 1 else 0)
  }

  /** Sum of the depth changes over a sequence of events. */
  function Balance(s: seq<Event>): int {
    if s == [] then 0 else Balance(s[..|s| - 1]) + Delta(s[|s| - 1])
  }

  lemma {:induction false} BalanceConcat(a: seq<Event>, b: seq<Event>)
    ensures Balance(a + b) == Balance(a) + Balance(b)
    decreases |b|
  {
    if b != [] {
      assert (a + b)[..|a + b| - 1] == a + b[..|b| - 1];
      BalanceConcat(a, b[..|b| - 1]);
    } else {
      assert a + b == a;
    }
  }

  /** The depth after `q` is the depth after `a` plus the balance of the events in between. */
  lemma {:induction false} OpenRange(evs: seq<Event>, a: nat, q: nat)
    requires a <= q < |evs|
    ensures Open(evs, q) == Open(evs, a) + Balance(evs[a + 1..q + 1])
    decreases q - a
  {
    if q > a {
      OpenRange(evs, a, q - 1);
      assert evs[a + 1..q + 1][..q - a - 1] == evs[a + 1..q];
    } else {
      assert evs[a + 1..q + 1] == [];
    }
  }

  // ---------------------------------------------------------------------------
  // Cursor primitives

  /** `next()`. */
  function Next(evs: seq<Event>, p: nat): (r: Result<nat>)
    requires p < |evs|
    ensures r.Ok? <==> !evs[p].EndDoc? && p + 1 < |evs|
    ensures r.Ok? ==> r.value == p + 1
  {
    if evs[p].EndDoc? || p + 1 == |evs| then Err(XmlError) else Ok(p + 1)
  }

  /**
   * The second half of `nextTag()`, once `next()` has reached `q`: one white-space
   * text is passed over, then the event must be a start or an end tag.
   */
  function TagFrom(evs: seq<Event>, q: nat): (r: Result<nat>)
    requires q < |evs|
    ensures r.Ok? ==> q <= r.value < |evs| && IsTag(evs[r.value])
    ensures r.Ok? ==> forall i | q <= i < r.value :: IsSpaceText(evs[i])
    ensures r.Ok? ==> r.value <= q + 1
    ensures IsTag(evs[q]) ==> r == Ok(q)
  {
    if IsSpaceText(evs[q]) then
      var q2 :- Next(evs, q);
      if IsTag(evs[q2]) then Ok(q2) else Err(XmlError)
    else if IsTag(evs[q]) then Ok(q)
    else Err(XmlError)
  }

  /** `nextTag()`: the next tag, after at most one white-space text. */
  function NextTag(evs: seq<Event>, p: nat): (r: Result<nat>)
    requires p < |evs|
    ensures r.Ok? ==> p < r.value <= p + 2 && r.value < |evs| && IsTag(evs[r.value])
    ensures r.Ok? ==> forall i | p < i < r.value :: IsSpaceText(evs[i])
    ensures r.Ok? ==> !evs[p].EndDoc?
    ensures r.Ok? ==> Within(evs, p, r.value)
  {
    var q :- Next(evs, p);
    TagFrom(evs, q)
  }

  /**
   * `readText()`: one `next()`; on a text event its text, then `nextTag()`;
   * otherwise "" with the cursor left on that event.
   */
  function ReadText(evs: seq<Event>, p: nat): (r: Result<(string, nat)>)
    requires p < |evs|
    ensures r.Ok? ==> p < r.value.1 < |evs|
    ensures r.Ok? && evs[p + 1].Text? ==> r.value.0 == evs[p + 1].text && IsTag(evs[r.value.1])
    ensures r.Ok? && !evs[p + 1].Text? ==> r.value == ("", p + 1)
    ensures (!evs[p].EndDoc? && p + 1 < |evs| && !evs[p + 1].Text?) ==> r == Ok(("", p + 1))
    ensures r.Ok? ==> Within(evs, p, r.value.1)
    ensures r.Err? ==> r.error == XmlError
  {
    var q :- Next(evs, p);
    if evs[q].Text? then
      var t :- NextTag(evs, q);
      WithinTrans(evs, p, q, t);
      Ok((evs[q].text, t))
    else
      Ok(("", q))
  }

  // ---------------------------------------------------------------------------
  // Subtrees

  /** No END_DOCUMENT among the events at positions a .. e-1. */
  predicate Live(evs: seq<Event>, a: nat, e: nat)
    requires a <= e <= |evs|
  {
    forall i | a <= i < e :: !evs[i].EndDoc?
  }

  /**
   * `e` is the end tag that closes the start tag at `a`: the first event after `a`
   * that brings the depth below the depth of `a`.
   */
  predicate Closes(evs: seq<Event>, a: nat, e: nat) {
    a < e < |evs| && evs[a].StartTag? && evs[e].EndTag?
    && Open(evs, e) == Open(evs, a) - 1
    && (forall i | a <= i < e :: Open(evs, i) >= Open(evs, a))
    && Live(evs, a, e)
  }

  /** A start tag has at most one closing tag. */
  lemma ClosesUnique(evs: seq<Event>, a: nat, e1: nat, e2: nat)
    requires Closes(evs, a, e1) && Closes(evs, a, e2)
    ensures e1 == e2
  {
  }

  /**
   * The cursor moved from `s` to `m` without leaving the element `s` belongs to:
   * every event before `m` is at least as deep as `s`, and `m` is at most the end
   * tag that closes the element open at `s`.
   */
  predicate Within(evs: seq<Event>, s: nat, m: nat) {
    s < m < |evs|
    && (forall i | s <= i < m :: Open(evs, i) >= Open(evs, s))
    && Live(evs, s, m)
    && Open(evs, m) >= Open(evs, s) - 1
  }

  lemma ClosesWithin(evs: seq<Event>, a: nat, e: nat)
    requires Closes(evs, a, e)
    ensures Within(evs, a, e)
  {
  }

  lemma WithinTrans(evs: seq<Event>, s: nat, q: nat, m: nat)
    requires Within(evs, s, q) && Within(evs, q, m) && Open(evs, q) >= Open(evs, s)
    ensures Within(evs, s, m)
  {
  }

  /** One step that does not leave the current element. */
  lemma WithinStep(evs: seq<Event>, p: nat)
    requires p + 1 < |evs| && !evs[p].EndDoc? && !evs[p + 1].EndTag?
    ensures Within(evs, p, p + 1) && Open(evs, p + 1) >= Open(evs, p)
  {
  }

  // ---------------------------------------------------------------------------
  // skip()

  /** The loop of `skip()` with depth counter `k`, the cursor at `p`. */
  function SkipLoop(evs: seq<Event>, p: nat, k: int): (r: Result<nat>)
    requires p < |evs|
    ensures r.Ok? ==> p < r.value < |evs|
    decreases |evs| - p
  {
    var q :- Next(evs, p);
    var k' := k + Delta(evs[q]);
    if k' == 0 then Ok(q) else SkipLoop(evs, q, k')
  }

  /** `skip()`: IllegalStateException unless on a start tag, else its matching end. */
  function SkipEnd(evs: seq<Event>, p: nat): (r: Result<nat>)
    requires p < |evs|
    ensures r.Ok? ==> p < r.value < |evs|
  {
    if !evs[p].StartTag? then Err(IllegalState) else SkipLoop(evs, p, 1)
  }

  lemma {:induction false} SkipLoopCloses(evs: seq<Event>, a: nat, p: nat, k: int)
    requires a <= p < |evs| && evs[a].StartTag?
    requires k == Open(evs, p) - Open(evs, a) + 1 && k >= 1
    requires forall i | a <= i <= p :: Open(evs, i) >= Open(evs, a)
    requires Live(evs, a, p)
    ensures SkipLoop(evs, p, k).Ok? ==> Closes(evs, a, SkipLoop(evs, p, k).value)
    ensures forall e | p < e && Closes(evs, a, e) :: SkipLoop(evs, p, k) == Ok(e)
    decreases |evs| - p
  {
    forall e | p < e && Closes(evs, a, e)
      ensures Next(evs, p).Ok?
    {
      assert !evs[p].EndDoc?;
    }
    if Next(evs, p).Ok? {
      var q := p + 1;
      var k' := k + Delta(evs[q]);
      assert Open(evs, q) == Open(evs, p) + Delta(evs[q]);
      if k' != 0 {
        forall e | p < e && Closes(evs, a, e)
          ensures q < e
        {
          assert Open(evs, e) == Open(evs, a) - 1;
        }
        SkipLoopCloses(evs, a, q, k');
      }
    }
  }

  /**
   * `skip()` succeeds exactly when the start tag it is on has a closing tag, and
   * then stops on that closing tag.
   */
  lemma SkipEndCloses(evs: seq<Event>, p: nat)
    requires p < |evs|
    ensures SkipEnd(evs, p) == Err(IllegalState) <==> !evs[p].StartTag?
    ensures SkipEnd(evs, p).Ok? ==> Closes(evs, p, SkipEnd(evs, p).value)
    ensures forall e: nat | Closes(evs, p, e) :: SkipEnd(evs, p) == Ok(e)
  {
    if evs[p].StartTag? {
      SkipLoopCloses(evs, p, p, 1);
      SkipLoopNeverIllegal(evs, p, 1);
    }
  }

  lemma {:induction false} SkipLoopNeverIllegal(evs: seq<Event>, p: nat, k: int)
    requires p < |evs|
    ensures SkipLoop(evs, p, k) != Err(IllegalState)
    decreases |evs| - p
  {
    if Next(evs, p).Ok? {
      var k' := k + Delta(evs[p + 1]);
      if k' != 0 {
        SkipLoopNeverIllegal(evs, p + 1, k');
      }
    }
  }

  /** `skip()` with its depth counter, as the readers run it. */
  method Skip(evs: seq<Event>, p: nat) returns (r: Result<nat>)
    requires p < |evs|
    ensures r == SkipEnd(evs, p)
    ensures r.Ok? ==> Closes(evs, p, r.value)
  {
    SkipEndCloses(evs, p);
    if !evs[p].StartTag? {
      return Err(IllegalState);
    }
    var depth := 1;
    var q := p;
    while depth != 0
      invariant q < |evs|
      invariant depth != 0 ==> SkipLoop(evs, q, depth) == SkipEnd(evs, p)
      invariant depth == 0 ==> SkipEnd(evs, p) == Ok(q)
      decreases |evs| - q, if depth == 0 then 0 else 1
    {
      var n := Next(evs, q);
      if n.Err? {
        return Err(n.error);
      }
      q := n.value;
      if evs[q].EndTag? {
        depth := depth - 1;
      } else if evs[q].StartTag? {
        depth := depth + 1;
      }
    }
    return Ok(q);
  }

  lemma SkipWithin(evs: seq<Event>, p: nat)
    requires p < |evs| && SkipEnd(evs, p).Ok?
    ensures Within(evs, p, SkipEnd(evs, p).value)
  {
    SkipEndCloses(evs, p);
  }

  // ---------------------------------------------------------------------------
  // readLink(), shared by both feed parsers and the older OPML parser

  /**
   * `readLink()`: must start on `link`; the `href` attribute when present (then
   * `nextTag()`), else the element text; anything before the end tag is skipped,
   * and the reader must end on `</link>`.
   */
  function ReadLink(evs: seq<Event>, p: nat): (r: Result<(string, nat)>)
    requires p < |evs|
    ensures r.Ok? ==> evs[p].StartTag? && evs[p].name == "link"
    ensures r.Ok? ==> Within(evs, p, r.value.1) && evs[r.value.1].EndTag? && evs[r.value.1].name == "link"
    ensures r.Ok? && "href" in evs[p].attrs ==> r.value.0 == evs[p].attrs["href"]
  {
    if !(evs[p].StartTag? && evs[p].name == "link") then Err(XmlError)
    else
      var (link, q) :- match Attr(evs[p], "href") {
        case Some(href) => (var t :- NextTag(evs, p); Ok((href, t)))
        case None => ReadText(evs, p)
      };
      var e :- SkipUnlessEnd(evs, q);
      if evs[e].EndTag? && evs[e].name == "link" then
        LinkWithin(evs, p, q, e);
        Ok((link, e))
      else Err(XmlError)
  }

  /** The `if (eventType != END_TAG) skip()` step of `readLink()`. */
  function SkipUnlessEnd(evs: seq<Event>, q: nat): (r: Result<nat>)
    requires q < |evs|
    ensures r.Ok? ==> q <= r.value < |evs|
  {
    if evs[q].EndTag? then Ok(q) else SkipEnd(evs, q)
  }

  lemma LinkWithin(evs: seq<Event>, p: nat, q: nat, e: nat)
    requires p < |evs| && evs[p].StartTag? && q < |evs|
    requires (Attr(evs[p], "href").Some? && NextTag(evs, p) == Ok(q))
          || (Attr(evs[p], "href").None? && ReadText(evs, p).Ok? && ReadText(evs, p).value.1 == q)
    requires (evs[q].EndTag? && e == q) || (!evs[q].EndTag? && SkipEnd(evs, q) == Ok(e))
    ensures Within(evs, p, e)
  {
    if !evs[q].EndTag? {
      SkipEndCloses(evs, q);
      WithinTrans(evs, p, q, e);
    }
  }
}
