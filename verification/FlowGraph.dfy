/** Blocks of the arena and the edges between them. */
module FlowGraph {

  type BlockId = nat
  datatype Option<+T> = None | Some(value: T)

  /** No identifier is listed twice. */
  ghost predicate NoRepeats(s: seq<nat>) {
    forall i, j :: 0 <= i < j < |s| ==> s[i] != s[j]
  }

  /** The label bits of an edge. */
  datatype EdgeLabel = EdgeLabel(gotoEdge: bool, loopEdge: bool, defaultSwitch: bool, irreducible: bool, tree: bool,
                                 forward: bool, cross: bool, back: bool, loopExit: bool)

  /** One end of an edge: the block at the other end, the label, and the slot there. */
  datatype BlockEdge = BlockEdge(point: BlockId, bits: EdgeLabel, reverseIndex: nat)

  /** In-edges and out-edges of every block, by block. */
  datatype Graph = Graph(intothis: seq<seq<BlockEdge>>, outofthis: seq<seq<BlockEdge>>)

  /** An edge named by its out-slot. */
  datatype Edge = Edge(source: BlockId, slot: nat)
}
