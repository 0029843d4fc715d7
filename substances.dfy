/**
 * The substances a cell of the picture can hold, and the integer codes the
 * game stores in the picture for them.
 */
module Substances {
  /** Blank is the empty cell; every vanishing particle leaves Blank behind. */
  datatype Kind = Blank | Metal | Sand | Water | Acid | Gas | Bomb

  datatype Option<T> = None | Some(value: T)

  /** The code stored for each substance. */
  function Code(k: Kind): (c: int)
    ensures 0 <= c < 7
    ensures c == 0 <==> k == Blank
  {
    match k
    case Blank => 0
    case Metal => 1
    case Sand => 2
    case Water => 3
    case Acid => 4
    case Gas => 5
    case Bomb => 6
  }

  /** Reads a stored code back; only the seven codes name a substance. */
  function FromCode(c: int): (r: Option<Kind>)
    ensures r.Some? <==> 0 <= c < 7
  {
    if c == 0 then Some(Blank)
    else if c == 1 then Some(Metal)
    else if c == 2 then Some(Sand)
    else if c == 3 then Some(Water)
    else if c == 4 then Some(Acid)
    else if c == 5 then Some(Gas)
    else if c == 6 then Some(Bomb)
    else None
  }

  lemma CodeRoundTrip(k: Kind)
    ensures FromCode(Code(k)) == Some(k)
  {
  }

  lemma FromCodeRoundTrip(c: int)
    requires 0 <= c < 7
    ensures FromCode(c).Some? && Code(FromCode(c).value) == c
  {
  }
}
