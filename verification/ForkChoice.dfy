/** The choice between the current head and a new header (core/forkchoice.go). */
module ForkChoices {
  import opened Wrappers

  /** What the choice depends on besides total difficulties: heights, whether the local
      miner wants to keep either block, and the random draw of a tie. */
  datatype Contest = Contest(number: nat, headNumber: nat, currentPreserve: bool, externPreserve: bool, coin: bool) {
    /** The same contest fought the other way round. */
    function Swapped(coin: bool): Contest {
      Contest(headNumber, number, externPreserve, currentPreserve, coin)
    }
  }

  /** Whether the new header becomes the head; None when a total difficulty is missing. Below
      the terminal total difficulty it never is the lighter one; between equally heavy ones the
      lower wins, which makes selfish mining harder, and the wish to keep a block or the draw
      decides only at the same height. */
  function ReorgNeeded(localTd: Option<int>, externTd: Option<int>, ttd: Option<int>, c: Contest): (r: Option<bool>)
    ensures r == None <==> localTd == None || externTd == None
    ensures r == Some(true) && !Terminal(ttd, externTd.value) ==> localTd.value <= externTd.value
    ensures r == Some(false) ==> externTd.value <= localTd.value && !Terminal(ttd, externTd.value)
    ensures localTd.Some? && localTd == externTd && !Terminal(ttd, externTd.value) ==>
              && (c.number < c.headNumber ==> r == Some(true))
              && (c.number > c.headNumber ==> r == Some(false))
              && (c.number == c.headNumber ==> (r == Some(true) <==> !c.currentPreserve && (c.externPreserve || c.coin)))
  {
    if localTd == None || externTd == None then None
    else if Terminal(ttd, externTd.value) then Some(true)
    else if externTd.value > localTd.value then Some(true)
    else if externTd.value < localTd.value then Some(false)
    else if c.number < c.headNumber then Some(true)
    else if c.number > c.headNumber then Some(false)
    else Some(!c.currentPreserve && (c.externPreserve || c.coin))
  }

  /** The merge has happened at this total difficulty. */
  predicate Terminal(ttd: Option<int>, td: int) {
    ttd.Some? && ttd.value <= td
  }

  /** Two headers below the terminal total difficulty replace each other at most when they are
      equally heavy and high and neither is to be preserved: otherwise there is no way back. */
  lemma OneWinnerUnlessTied(localTd: int, externTd: int, ttd: Option<int>, c: Contest, coin: bool)
    requires !Terminal(ttd, localTd) && !Terminal(ttd, externTd)
    requires ReorgNeeded(Some(localTd), Some(externTd), ttd, c) == Some(true)
    requires ReorgNeeded(Some(externTd), Some(localTd), ttd, c.Swapped(coin)) == Some(true)
    ensures localTd == externTd && c.number == c.headNumber && !c.currentPreserve && !c.externPreserve && c.coin && coin
  {
  }
}
