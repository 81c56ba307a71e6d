/**
 * Properties that span roles: what the board shows once the presenter's
 * broadcast state reaches it.
 */
module Protocol {
  import opened Game
  import Presenter
  import Board

  /**
   * However often players repeat their JOIN, a board that receives the
   * presenter's state afterwards shows the number of distinct players.
   */
  lemma BoardCountsDistinctJoins(roomCode: string, nowMs: int, ids: seq<string>, b: Board.BoardView)
    ensures var a := Presenter.Run(Presenter.Init(roomCode, nowMs), Presenter.Joins(ids));
      Board.PlayerCountShown(Board.OnMsg(b, State(a.state))) == |Presenter.IdSet(ids)|
  {
    Presenter.RunJoins(Presenter.Init(roomCode, nowMs), ids);
  }
}
