/** Streams of callbacks up to how their text is cut into pieces. */
module ParserEvents {
  import opened Ascii
  import opened ParserTypes

  /** A text callback whose text may be continued by the next one of the same kind: for header
      text this shows in the parser state it was made in. */
  predicate Open(e: Event) {
    && e.Data?
    && (e.kind == Field ==> e.at == S_HEADER_FIELD)
    && (e.kind == Value ==> e.at == S_HEADER_VALUE)
  }

  predicate Continues(e: Event, f: Event) { Open(e) && f.Data? && f.kind == e.kind }

  /** Adds a callback, merging it into the last one if it continues that. */
  function Push(es: seq<Event>, f: Event): seq<Event> {
    if es != [] && Continues(es[|es| - 1], f)
    then es[..|es| - 1] + [Data(f.kind, es[|es| - 1].text + f.text, f.at)]
    else es + [f]
  }

  function PushAll(es: seq<Event>, fs: seq<Event>): seq<Event> {
    if fs == [] then es else Push(PushAll(es, fs[..|fs| - 1]), fs[|fs| - 1])
  }

  lemma {:induction false} PushAllAppend(es: seq<Event>, fs: seq<Event>, gs: seq<Event>)
    ensures PushAll(es, fs + gs) == PushAll(PushAll(es, fs), gs)
    decreases |gs|
  {
    if gs == [] {
      assert fs + gs == fs;
    } else {
      assert (fs + gs)[..|fs + gs| - 1] == fs + gs[..|gs| - 1];
      PushAllAppend(es, fs, gs[..|gs| - 1]);
    }
  }

  lemma PushAllOne(es: seq<Event>, f: Event)
    ensures PushAll(es, [f]) == Push(es, f)
  {
    assert [f][..0] == [];
    assert PushAll(es, []) == es;
  }

  lemma PushOnto(front: seq<Event>, e: Event, f: Event)
    requires Continues(e, f)
    ensures Push(front + [e], f) == front + [Data(f.kind, e.text + f.text, f.at)]
  {
    assert (front + [e])[..|front|] == front;
  }

  /** Two pieces in a row are one piece. */
  lemma PushTwice(es: seq<Event>, k: Kind, t: Bytes, s: State, u: Bytes, at: State)
    requires Open(Piece(k, t, s))
    ensures Push(Push(es, Piece(k, t, s)), Piece(k, u, at)) == Push(es, Piece(k, t + u, at))
  {
    hide Push;
    if es != [] && Continues(es[|es| - 1], Piece(k, t, s)) {
      var front, last := es[..|es| - 1], es[|es| - 1];
      assert es == front + [last];
      PushOnto(front, last, Piece(k, t, s));
      PushOnto(front, Data(k, last.text + t, Piece(k, t, s).at), Piece(k, u, at));
      PushOnto(front, last, Piece(k, t + u, at));
      assert (last.text + t) + u == last.text + (t + u);
    } else {
      PushNew(es, Piece(k, t, s));
      PushNew(es, Piece(k, t + u, at));
      PushOnto(es, Piece(k, t, s), Piece(k, u, at));
    }
  }

  lemma PushNew(es: seq<Event>, f: Event)
    requires es == [] || !Continues(es[|es| - 1], f)
    ensures Push(es, f) == es + [f]
  {
  }
}
