/** The "Formal Specification of the Encoding" of the Solidity Contract ABI Specification,
    for the types an OrderData struct uses. It knows nothing of the solver's encoder. */
module AbiSpec {
  import opened Bytes

  /** A tuple component after encoding: enc(X) and whether X is of a dynamic type. */
  datatype Part = Part(dynamic: bool, enc: seq<byte>)

  /** len(head(X1) ... head(Xk)). */
  function HeadSizes(ps: seq<Part>): nat {
    if |ps| == 0 then 0
    else HeadSizes(ps[..|ps| - 1]) + if ps[|ps| - 1].dynamic then 32 else |ps[|ps| - 1].enc|
  }

  /** tail(X1) ... tail(Xk). */
  function Tails(ps: seq<Part>): seq<byte> {
    if |ps| == 0 then []
    else Tails(ps[..|ps| - 1]) + if ps[|ps| - 1].dynamic then ps[|ps| - 1].enc else []
  }

  /** head(X1) ... head(Xk) in a tuple whose heads take up headSizes bytes: a static component
      stands for itself, a dynamic one is the position of its tail. */
  function Heads(ps: seq<Part>, headSizes: nat): seq<byte> {
    if |ps| == 0 then []
    else
      var init, p := ps[..|ps| - 1], ps[|ps| - 1];
      Heads(init, headSizes) + if p.dynamic then ToBytes(headSizes + |Tails(init)|, 32) else p.enc
  }

  datatype Value =
    | UInt(n: nat)                 // uint<M>, already known to fit
    | Bytes32(word: seq<byte>)     // bytes32
    | DynBytes(content: seq<byte>) // bytes
    | Tuple(components: seq<Value>)

  predicate IsDynamic(v: Value) {
    match v
    case UInt(_) => false
    case Bytes32(_) => false
    case DynBytes(_) => true
    case Tuple(vs) => exists i :: 0 <= i < |vs| && IsDynamic(vs[i])
  }

  /** enc(X). */
  function Enc(v: Value): seq<byte> {
    match v
    case UInt(n) => ToBytes(n, 32)
    case Bytes32(w) => w
    case DynBytes(b) => ToBytes(|b|, 32) + b + Zeros((32 - |b| % 32) % 32)
    case Tuple(vs) =>
      var ps := seq(|vs|, i requires 0 <= i < |vs| => Part(IsDynamic(vs[i]), Enc(vs[i])));
      Heads(ps, HeadSizes(ps)) + Tails(ps)
  }

  // ------------------------------------------------- tuples of words and one dynamic component

  function WordParts(ws: seq<seq<byte>>): (ps: seq<Part>)
    ensures |ps| == |ws|
  {
    seq(|ws|, i requires 0 <= i < |ws| => Part(false, ws[i]))
  }

  lemma {:induction false} AssembleWords(ws: seq<seq<byte>>, headSizes: nat)
    requires forall i :: 0 <= i < |ws| ==> |ws[i]| == 32
    ensures HeadSizes(WordParts(ws)) == 32 * |ws|
    ensures Tails(WordParts(ws)) == []
    ensures Heads(WordParts(ws), headSizes) == Flatten(ws)
  {
    if |ws| > 0 {
      var init := ws[..|ws| - 1];
      AssembleWords(init, headSizes);
      assert WordParts(ws)[..|ws| - 1] == WordParts(init);
    }
  }

  lemma Snoc(ps: seq<Part>, p: Part, headSizes: nat)
    ensures HeadSizes(ps + [p]) == HeadSizes(ps) + if p.dynamic then 32 else |p.enc|
    ensures Tails(ps + [p]) == Tails(ps) + if p.dynamic then p.enc else []
    ensures Heads(ps + [p], headSizes)
         == Heads(ps, headSizes) + if p.dynamic then ToBytes(headSizes + |Tails(ps)|, 32) else p.enc
  {
    assert (ps + [p])[..|ps|] == ps;
  }

  lemma AssembleWordsThenDynamic(ws: seq<seq<byte>>, enc: seq<byte>, hs: nat)
    requires forall i :: 0 <= i < |ws| ==> |ws[i]| == 32
    requires hs == 32 * |ws| + 32
    ensures var ps := WordParts(ws) + [Part(true, enc)];
            HeadSizes(ps) == hs && Heads(ps, hs) == Flatten(ws) + ToBytes(hs, 32) && Tails(ps) == enc
  {
    AssembleWords(ws, hs);
    Snoc(WordParts(ws), Part(true, enc), hs);
    assert [] + enc == enc;
  }

  predicate IsWord(v: Value) {
    v.UInt? || (v.Bytes32? && |v.word| == 32)
  }

  function WordOf(v: Value): (w: seq<byte>)
    requires IsWord(v)
    ensures |w| == 32 && w == Enc(v)
  {
    match v
    case UInt(n) => ToBytes(n, 32)
    case Bytes32(w) => w
  }

  function Words(vs: seq<Value>): (ws: seq<seq<byte>>)
    requires forall i :: 0 <= i < |vs| ==> IsWord(vs[i])
    ensures |ws| == |vs|
    ensures forall i :: 0 <= i < |ws| ==> ws[i] == WordOf(vs[i])
  {
    seq(|vs|, i requires 0 <= i < |vs| => WordOf(vs[i]))
  }

  /** A tuple of static words followed by one dynamic component: the words, the position of the
      component counted from the start of the tuple, the component. */
  lemma EncWordsThenDynamic(vs: seq<Value>, d: Value)
    requires forall i :: 0 <= i < |vs| ==> IsWord(vs[i])
    requires IsDynamic(d)
    ensures Enc(Tuple(vs + [d])) == Flatten(Words(vs)) + ToBytes(32 * |vs| + 32, 32) + Enc(d)
  {
    var all, hs := vs + [d], 32 * |vs| + 32;
    var ps := seq(|all|, i requires 0 <= i < |all| => Part(IsDynamic(all[i]), Enc(all[i])));
    assert ps == WordParts(Words(vs)) + [Part(true, Enc(d))];
    AssembleWordsThenDynamic(Words(vs), Enc(d), hs);
    assert Enc(Tuple(all)) == Heads(ps, hs) + Tails(ps);
  }

  /** abi.encode of a single struct of words and one dynamic member. */
  lemma EncOneStruct(vs: seq<Value>, d: Value)
    requires forall i :: 0 <= i < |vs| ==> IsWord(vs[i])
    requires IsDynamic(d)
    ensures Enc(Tuple([Tuple(vs + [d])]))
         == ToBytes(32, 32) + (Flatten(Words(vs)) + ToBytes(32 * |vs| + 32, 32) + Enc(d))
  {
    var t := Tuple(vs + [d]);
    assert (vs + [d])[|vs|] == d;
    EncWordsThenDynamic(vs, d);
    EncWordsThenDynamic([], t);
    assert [] + [t] == [t];
    assert Flatten(Words([])) + ToBytes(32, 32) == ToBytes(32, 32);
  }
}
