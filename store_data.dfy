// The two stored records, `Feed` and `Post`, and the Parcel encoding of a Post
// (app/src/main/java/com/alex/arse/data/Post.kt).

module StoreData {
  import opened JavaLang

  /**
   * A subscribed feed. `id` is the table's generated key (0 before insertion);
   * `contentHash` is the hash of the start of the last document read.
   */
  datatype Feed = Feed(id: Int32, url: string, name: string, htmlUrl: string, category: string, contentHash: Int32)

  /** A stored post; a row is identified by the pair (feedId, postId). */
  datatype Post = Post(feedId: Int32, postId: Int32, title: string, author: string, link: string,
                       timestamp: Int64, content: string, read: bool)

  /** The composite primary key `(feed_id, post_id)`. */
  function Key(p: Post): (Int32, Int32) {
    (p.feedId, p.postId)
  }

  /** Kotlin `Byte`. */
  type Int8 = x: int | -0x80 <= x < 0x80

  // ---------------------------------------------------------------------------
  // Parcel

  /** One value written to a Parcel; a string cell may hold null. */
  datatype Cell = IntCell(i: Int32) | LongCell(l: Int64) | StringCell(s: Option<string>) | ByteCell(b: Int8)

  /**
   * An `android.os.Parcel`: the values written so far, and the read position.
   * A read past the end answers 0 or null and does not move the position.
   */
  class Parcel {
    var cells: seq<Cell>
    var pos: nat

    constructor()
      ensures cells == [] && pos == 0
    {
      cells := [];
      pos := 0;
    }

    /** A parcel as it arrives on the other side: the same cells, read from the start. */
    constructor FromCells(cs: seq<Cell>)
      ensures cells == cs && pos == 0
    {
      cells := cs;
      pos := 0;
    }

    method Write(c: Cell)
      modifies this
      ensures cells == old(cells) + [c] && pos == old(pos)
    {
      cells := cells + [c];
    }

    /** The cell under the read position, if any; the position moves past it. */
    method Take() returns (c: Option<Cell>)
      modifies this
      ensures c == CellAt(old(cells), old(pos))
      ensures cells == old(cells)
      ensures pos == if old(pos) < |cells| then old(pos) + 1 else old(pos)
    {
      if pos < |cells| {
        c := Some(cells[pos]);
        pos := pos + 1;
      } else {
        c := None;
      }
    }

    method ReadInt() returns (x: Int32)
      modifies this
      ensures x == AsInt(CellAt(old(cells), old(pos)))
      ensures cells == old(cells) && pos == Advance(old(cells), old(pos))
    {
      var c := Take();
      x := AsInt(c);
    }

    method ReadLong() returns (x: Int64)
      modifies this
      ensures x == AsLong(CellAt(old(cells), old(pos)))
      ensures cells == old(cells) && pos == Advance(old(cells), old(pos))
    {
      var c := Take();
      x := AsLong(c);
    }

    method ReadString() returns (x: Option<string>)
      modifies this
      ensures x == AsString(CellAt(old(cells), old(pos)))
      ensures cells == old(cells) && pos == Advance(old(cells), old(pos))
    {
      var c := Take();
      x := AsString(c);
    }

    method ReadByte() returns (x: Int8)
      modifies this
      ensures x == AsByte(CellAt(old(cells), old(pos)))
      ensures cells == old(cells) && pos == Advance(old(cells), old(pos))
    {
      var c := Take();
      x := AsByte(c);
    }
  }

  function CellAt(cells: seq<Cell>, pos: nat): Option<Cell> {
    if pos < |cells| then Some(cells[pos]) else None
  }

  function Advance(cells: seq<Cell>, pos: nat): nat {
    if pos < |cells| then pos + 1 else pos
  }

  // A cell of another kind reads as the default: the model does not reinterpret bytes.
  function AsInt(c: Option<Cell>): Int32 {
    if c.Some? && c.value.IntCell? then c.value.i else 0
  }

  function AsLong(c: Option<Cell>): Int64 {
    if c.Some? && c.value.LongCell? then c.value.l else 0
  }

  function AsString(c: Option<Cell>): Option<string> {
    if c.Some? && c.value.StringCell? then c.value.s else None
  }

  function AsByte(c: Option<Cell>): Int8 {
    if c.Some? && c.value.ByteCell? then c.value.b else 0
  }

  /** What `writeToParcel` appends: the eight fields in declaration order, `read` as 1 or 0. */
  function Encode(p: Post): (cs: seq<Cell>)
    ensures |cs| == 8
  {
    [IntCell(p.feedId), IntCell(p.postId), StringCell(Some(p.title)), StringCell(Some(p.author)),
     StringCell(Some(p.link)), LongCell(p.timestamp), StringCell(Some(p.content)),
     ByteCell(if p.read then 1 else 0)]
  }

  /**
   * What `Post(parcel)` reads from position `pos` on: the same eight fields, a null
   * string replaced by "title", "author", "parcel" or "content", and `read` true
   * for any byte other than 0.
   */
  function Decode(cells: seq<Cell>, pos: nat): Post {
    Post(AsInt(CellAt(cells, pos)), AsInt(CellAt(cells, pos + 1)),
         AsString(CellAt(cells, pos + 2)).GetOr("title"), AsString(CellAt(cells, pos + 3)).GetOr("author"),
         AsString(CellAt(cells, pos + 4)).GetOr("parcel"), AsLong(CellAt(cells, pos + 5)),
         AsString(CellAt(cells, pos + 6)).GetOr("content"), AsByte(CellAt(cells, pos + 7)) != 0)
  }

  /** Decoding what was encoded gives back an equal Post, wherever it sits in the parcel. */
  lemma DecodeEncode(before: seq<Cell>, p: Post, after: seq<Cell>)
    ensures Decode(before + Encode(p) + after, |before|) == p
  {
    var cs := before + Encode(p) + after;
    forall k | 0 <= k < 8
      ensures CellAt(cs, |before| + k) == Some(Encode(p)[k])
    {
    }
  }

  /** A parcel holding nulls and nothing else decodes to the defaults. */
  lemma DecodeDefaults(cells: seq<Cell>, pos: nat)
    requires pos >= |cells|
    ensures Decode(cells, pos) == Post(0, 0, "title", "author", "parcel", 0, "content", false)
  {
  }

  /** `writeToParcel`. */
  method WriteToParcel(p: Post, parcel: Parcel)
    modifies parcel
    ensures parcel.cells == old(parcel.cells) + Encode(p) && parcel.pos == old(parcel.pos)
  {
    parcel.Write(IntCell(p.feedId));
    parcel.Write(IntCell(p.postId));
    parcel.Write(StringCell(Some(p.title)));
    parcel.Write(StringCell(Some(p.author)));
    parcel.Write(StringCell(Some(p.link)));
    parcel.Write(LongCell(p.timestamp));
    parcel.Write(StringCell(Some(p.content)));
    parcel.Write(ByteCell(if p.read then 1 else 0));
  }

  /** The secondary constructor `Post(parcel)`. */
  method ReadFromParcel(parcel: Parcel) returns (p: Post)
    modifies parcel
    ensures p == Decode(old(parcel.cells), old(parcel.pos))
    ensures parcel.cells == old(parcel.cells)
    ensures parcel.pos == Min(old(parcel.pos) + 8, |parcel.cells|) || old(parcel.pos) > |parcel.cells|
  {
    ghost var cs := parcel.cells;
    ghost var p0 := parcel.pos;
    ReadsInOrder(cs, p0);
    var feedId := parcel.ReadInt();
    assert parcel.pos == Steps(cs, p0, 1);
    var postId := parcel.ReadInt();
    assert parcel.pos == Steps(cs, p0, 2);
    var title := parcel.ReadString();
    assert parcel.pos == Steps(cs, p0, 3);
    var author := parcel.ReadString();
    assert parcel.pos == Steps(cs, p0, 4);
    var link := parcel.ReadString();
    assert parcel.pos == Steps(cs, p0, 5);
    var timestamp := parcel.ReadLong();
    assert parcel.pos == Steps(cs, p0, 6);
    var content := parcel.ReadString();
    assert parcel.pos == Steps(cs, p0, 7);
    var read := parcel.ReadByte();
    assert parcel.pos == Steps(cs, p0, 8);
    StepsValue(cs, p0, 8);
    p := Post(feedId, postId, title.GetOr("title"), author.GetOr("author"), link.GetOr("parcel"),
              timestamp, content.GetOr("content"), read != 0);
  }

  /** Each read of the constructor sees the next cell, until the cells run out. */
  lemma ReadsInOrder(cs: seq<Cell>, p0: nat)
    ensures forall k: nat | k < 8 :: CellAt(cs, Steps(cs, p0, k)) == CellAt(cs, p0 + k)
  {
    forall k: nat | k < 8
      ensures CellAt(cs, Steps(cs, p0, k)) == CellAt(cs, p0 + k)
    {
      StepsValue(cs, p0, k);
    }
  }

  function Steps(cs: seq<Cell>, p0: nat, k: nat): nat {
    if k == 0 then p0 else Advance(cs, Steps(cs, p0, k - 1))
  }

  lemma {:induction false} StepsValue(cs: seq<Cell>, p0: nat, k: nat)
    ensures Steps(cs, p0, k) == if p0 + k <= |cs| then p0 + k else if p0 <= |cs| then |cs| else p0
  {
    if k > 0 {
      StepsValue(cs, p0, k - 1);
    }
  }

  /** Writing a post to a fresh parcel and reading it back on the other side gives the same post. */
  method ParcelRoundTrip(p: Post) returns (q: Post)
    ensures q == p
  {
    var out := new Parcel();
    WriteToParcel(p, out);
    var incoming := new Parcel.FromCells(out.cells);
    q := ReadFromParcel(incoming);
    DecodeEncode([], p, []);
    assert [] + Encode(p) + [] == Encode(p);
  }
}
