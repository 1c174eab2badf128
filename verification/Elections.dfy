/** Writer elections as seen by one node (attrd_elections.c); the vote comparison itself is left to
    the outcome chosen by the environment. */
module Elections {
  import opened Common
  import opened Model

  /** Calling an election has no effect while the local node is not an active member. */
  function CallVote(n: Node, env: Env): Node {
    if env.active then n.(election := InProgress, outbox := n.outbox + [Vote]) else n
  }

  function StartElectionIfNeeded(n: Node, env: Env): Node {
    if n.writer.None? && !n.election.InProgress? && !n.shuttingDown then CallVote(n, env) else n
  }

  /** Look at the writer state a sync response carries. */
  function CheckForNewWriter(n: Node, peer: string, peerWon: bool, env: Env): Node {
    if !peerWon then n
    else if n.election.Won? && Fold(peer) != Fold(n.self) then CallVote(n, env)
    else if !SameText(Some(peer), n.writer) then n.(writer := Some(peer))
    else n
  }
}
