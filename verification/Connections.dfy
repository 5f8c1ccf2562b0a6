/** What the modules about client connections share. */
module Connections {

  type ClientId = nat

  newtype Byte = b: int | 0 <= b < 256

  const NEWLINE: Byte := 10

  /** How far a flush got: nothing left, the socket full, or the socket broken. */
  datatype FlushResult = Drained | Blocked | Failed

  /** The pieces one after the other. */
  function Flat(pieces: seq<seq<Byte>>): seq<Byte> {
    if pieces == [] then [] else pieces[0] + Flat(pieces[1..])
  }

  lemma Associate<T>(a: seq<T>, b: seq<T>, c: seq<T>)
    ensures (a + b) + c == a + (b + c)
  {
  }

  lemma {:induction false} FlatAppend(a: seq<seq<Byte>>, b: seq<seq<Byte>>)
    ensures Flat(a + b) == Flat(a) + Flat(b)
  {
    if a == [] {
      assert a + b == b;
    } else {
      assert (a + b)[1..] == a[1..] + b;
      FlatAppend(a[1..], b);
      Associate(a[0], Flat(a[1..]), Flat(b));
    }
  }

  lemma FlatOne(piece: seq<Byte>)
    ensures Flat([piece]) == piece
  {
    assert [piece][1..] == [];
  }

  lemma FlatSnoc(pieces: seq<seq<Byte>>, piece: seq<Byte>)
    ensures Flat(pieces + [piece]) == Flat(pieces) + piece
  {
    FlatAppend(pieces, [piece]);
    FlatOne(piece);
  }

  lemma FlatNext(pieces: seq<seq<Byte>>, i: nat)
    requires i < |pieces|
    ensures Flat(pieces[..i + 1]) == Flat(pieces[..i]) + pieces[i]
  {
    FlatSnoc(pieces[..i], pieces[i]);
    assert pieces[..i] + [pieces[i]] == pieces[..i + 1];
  }
}
