/** Ticket blocks of the listing: the column catalogue of each named block
    and the pruning of blocks that have nothing to show. */
module Blocks {

  /** The columns a block can display. */
  datatype Column =
    | TicketIdColumn | TicketNameColumn | StartingUser | RepliesColumn | AllRepliesColumn
    | LastReplyColumn | StatusColumn | AssignedColumn | UrgencyColumn | UpdatedColumn | ActionsColumn

  /** The block names that have a column list. */
  predicate KnownBlock(name: string) {
    name in ["assigned", "new", "staff", "user_staff", "user_user", "closed", "recycled", "withdeleted"]
  }

  /** The columns of a named block, in display order. Every known block shows
      the ticket id and name first and its actions last, with no column twice;
      an unknown name gets no columns. */
  function BlockColumns(name: string): (cols: seq<Column>)
    ensures KnownBlock(name) <==> |cols| > 0
    ensures KnownBlock(name) ==> |cols| >= 3 && cols[0] == TicketIdColumn && cols[1] == TicketNameColumn
                                 && cols[|cols| - 1] == ActionsColumn
    ensures forall i, j :: 0 <= i < j < |cols| ==> cols[i] != cols[j]
  {
    if name == "assigned" then
      [TicketIdColumn, TicketNameColumn, StartingUser, RepliesColumn, StatusColumn, UrgencyColumn, UpdatedColumn, ActionsColumn]
    else if name == "new" then
      [TicketIdColumn, TicketNameColumn, StartingUser, AssignedColumn, UrgencyColumn, UpdatedColumn, ActionsColumn]
    else if name == "staff" then
      [TicketIdColumn, TicketNameColumn, StartingUser, RepliesColumn, AssignedColumn, UrgencyColumn, UpdatedColumn, ActionsColumn]
    else if name == "user_staff" then
      [TicketIdColumn, TicketNameColumn, StartingUser, LastReplyColumn, RepliesColumn, UrgencyColumn, UpdatedColumn, ActionsColumn]
    else if name == "user_user" then
      [TicketIdColumn, TicketNameColumn, LastReplyColumn, RepliesColumn, UrgencyColumn, UpdatedColumn, ActionsColumn]
    else if name == "closed" then
      [TicketIdColumn, TicketNameColumn, StartingUser, RepliesColumn, UpdatedColumn, ActionsColumn]
    else if name == "recycled" || name == "withdeleted" then
      [TicketIdColumn, TicketNameColumn, StartingUser, AllRepliesColumn, AssignedColumn, UpdatedColumn, ActionsColumn]
    else
      []
  }

  /** The end-user view of the pending-with-user block hides the ticket
      starter, which the staff view shows. */
  lemma ColumnVariants()
    ensures StartingUser !in BlockColumns("user_user") && StartingUser in BlockColumns("user_staff")
  {
    assert "user_user"[5] != "user_staff"[5];
    assert BlockColumns("user_user")[2] == LastReplyColumn;
    assert BlockColumns("user_staff")[2] == StartingUser;
  }

  /** The blocks of the recycle bin count deleted replies and never plain
      replies. */
  lemma RecycleBinColumns(b: string)
    requires b == "recycled" || b == "withdeleted"
    ensures AllRepliesColumn in BlockColumns(b) && RepliesColumn !in BlockColumns(b)
  {
    assert BlockColumns(b)[3] == AllRepliesColumn;
  }

  /** What the listing knows about a block when it prunes. */
  datatype Block = Block(key: string, display: bool, count: nat, required: bool, collapsed: bool)

  /** Whether a block is kept for display: it must be displayable and have
      tickets, be required even when empty, or be shown collapsed. */
  predicate Survives(b: Block) {
    b.display && (b.count > 0 || b.required || b.collapsed)
  }

  /** Whether rows are fetched for a block: displayable and not collapsed. */
  predicate Fetches(b: Block) {
    b.display && !b.collapsed
  }

  /** Drop the blocks that do not survive, keeping the others in order. */
  function Prune(blocks: seq<Block>): (r: seq<Block>)
    ensures forall b :: b in r <==> b in blocks && Survives(b)
    ensures |r| <= |blocks|
    ensures forall b :: multiset(r)[b] == if Survives(b) then multiset(blocks)[b] else 0
  {
    if |blocks| == 0 then []
    else
      assert blocks == [blocks[0]] + blocks[1..];
      if Survives(blocks[0]) then [blocks[0]] + Prune(blocks[1..])
      else Prune(blocks[1..])
  }

  /** `sub` keeps some of the elements of `s`, in their original order. */
  predicate Subsequence(sub: seq<Block>, s: seq<Block>) {
    if |sub| == 0 then true
    else if |s| == 0 then false
    else if sub[0] == s[0] then Subsequence(sub[1..], s[1..])
    else Subsequence(sub, s[1..])
  }

  /** Pruning keeps the surviving blocks in their original relative order. */
  lemma {:induction false} PruneKeepsOrder(blocks: seq<Block>)
    ensures Subsequence(Prune(blocks), blocks)
  {
    if |blocks| > 0 {
      PruneKeepsOrder(blocks[1..]);
      if !Survives(blocks[0]) {
        var r := Prune(blocks[1..]);
        if |r| > 0 && r[0] == blocks[0] {
          assert false;
        }
      }
    }
  }

  /** Pruning a pruned list changes nothing. */
  lemma {:induction false} PruneIdempotent(blocks: seq<Block>)
    ensures Prune(Prune(blocks)) == Prune(blocks)
  {
    if |blocks| > 0 {
      PruneIdempotent(blocks[1..]);
      if Survives(blocks[0]) {
        assert ([blocks[0]] + Prune(blocks[1..]))[1..] == Prune(blocks[1..]);
      }
    }
  }

  /** A fetched block with tickets survives; a block that is not displayable never does. */
  lemma FetchedBlocksWithTicketsSurvive(b: Block)
    ensures Fetches(b) && b.count > 0 ==> Survives(b)
    ensures !b.display ==> !Survives(b)
  {
  }
}
