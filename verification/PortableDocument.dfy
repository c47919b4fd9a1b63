/** Portable Service documents: a validator with an explicit stack against a recursive definition. */
module PortableDocument {
  import opened Common

  const MAXIMUM_BLOCKS: nat := 1024
  const MAXIMUM_DEPTH: nat := 8
  const MAXIMUM_TEXT: nat := 16384
  const MAXIMUM_TITLE: nat := 256
  const MAXIMUM_ITEMS: nat := 128

  datatype Block =
    | Paragraph(text: string)
    | Section(title: string, blocks: seq<Block>)
    | BulletedList(items: seq<string>)
    | NumberedList(items: seq<string>)

  datatype Document = Document(
    format: string, version: string, id: string, summary: Option<seq<Block>>, content: seq<Block>)

  datatype Issue = BadHeader | EmptyContent | TooManyBlocks | BadText | BadSection | BadList

  predicate IsAlphanumeric(c: char) {
    '0' <= c <= '9' || 'A' <= c <= 'Z' || 'a' <= c <= 'z'
  }

  predicate ValidId(id: string) {
    1 <= |id| <= 32 && IsAlphanumeric(id[0])
    && forall i :: 0 <= i < |id| ==> IsAlphanumeric(id[i]) || id[i] in "._-"
  }

  predicate BoundedText(s: string, maximum: nat) {
    1 <= |s| <= maximum
  }

  // ----- The definition

  predicate ValidItems(items: seq<string>) {
    1 <= |items| <= MAXIMUM_ITEMS && forall i :: 0 <= i < |items| ==> BoundedText(items[i], MAXIMUM_TEXT)
  }

  /** A block that stands inside `depth` sections. */
  predicate ValidBlock(b: Block, depth: nat)
    decreases b
  {
    match b
    case Paragraph(text) => BoundedText(text, MAXIMUM_TEXT)
    case Section(title, blocks) =>
      BoundedText(title, MAXIMUM_TITLE) && depth < MAXIMUM_DEPTH && blocks != []
      && forall i :: 0 <= i < |blocks| ==> ValidBlock(blocks[i], depth + 1)
    case BulletedList(items) => ValidItems(items)
    case NumberedList(items) => ValidItems(items)
  }

  predicate ValidBlocks(blocks: seq<Block>, depth: nat) {
    forall i :: 0 <= i < |blocks| ==> ValidBlock(blocks[i], depth)
  }

  /** The number of blocks, those inside sections included. */
  function Size(b: Block): nat
    decreases b, 1
  {
    1 + if b.Section? then TotalSize(b.blocks) else 0
  }

  function TotalSize(blocks: seq<Block>): nat
    decreases blocks, 0
  {
    if blocks == [] then 0 else Size(blocks[0]) + TotalSize(blocks[1..])
  }

  function Roots(d: Document): seq<Block> {
    d.content + if d.summary.Some? then d.summary.value else []
  }

  predicate ValidDocument(d: Document) {
    && d.format == "aep-service-document" && d.version == "1.0" && ValidId(d.id)
    && d.content != [] && d.summary != Some([])
    && ValidBlocks(Roots(d), 0)
    && TotalSize(Roots(d)) <= MAXIMUM_BLOCKS
  }

  // ----- The stack

  type Pending = seq<(Block, nat)>

  ghost function PendingSize(pending: Pending): nat {
    if pending == [] then 0 else PendingSize(pending[..|pending| - 1]) + Size(pending[|pending| - 1].0)
  }

  ghost predicate PendingValid(pending: Pending) {
    forall i :: 0 <= i < |pending| ==> ValidBlock(pending[i].0, pending[i].1)
  }

  function At(blocks: seq<Block>, depth: nat): Pending {
    seq(|blocks|, i requires 0 <= i < |blocks| => (blocks[i], depth))
  }

  lemma {:induction false} TotalSizeLast(blocks: seq<Block>)
    requires blocks != []
    ensures TotalSize(blocks) == TotalSize(blocks[..|blocks| - 1]) + Size(blocks[|blocks| - 1])
  {
    if |blocks| > 1 {
      TotalSizeLast(blocks[1..]);
      assert blocks[..|blocks| - 1][1..] == blocks[1..][..|blocks| - 2];
    } else {
      assert blocks[1..] == [] && blocks[..0] == [];
    }
  }

  lemma {:induction false} ExtendedSize(pending: Pending, blocks: seq<Block>, depth: nat)
    ensures PendingSize(pending + At(blocks, depth)) == PendingSize(pending) + TotalSize(blocks)
    decreases |blocks|
  {
    var all := pending + At(blocks, depth);
    if blocks == [] {
      assert all == pending;
    } else {
      var front := blocks[..|blocks| - 1];
      ExtendedSize(pending, front, depth);
      assert all[..|all| - 1] == pending + At(front, depth);
      TotalSizeLast(blocks);
    }
  }

  lemma ExtendedValid(pending: Pending, blocks: seq<Block>, depth: nat)
    ensures PendingValid(pending + At(blocks, depth)) <==> PendingValid(pending) && ValidBlocks(blocks, depth)
  {
    var all := pending + At(blocks, depth);
    if PendingValid(all) {
      assert forall i :: 0 <= i < |pending| ==> all[i] == pending[i];
      assert forall i :: 0 <= i < |blocks| ==> all[|pending| + i] == (blocks[i], depth);
    }
  }

  lemma PoppedValid(pending: Pending)
    requires pending != []
    ensures PendingValid(pending) <==>
            PendingValid(pending[..|pending| - 1]) && ValidBlock(pending[|pending| - 1].0, pending[|pending| - 1].1)
  {
  }

  /** Replacing the top of the stack by its children removes one block from what is left. */
  lemma Replaced(pending: Pending, block: Block, depth: nat, children: seq<Block>)
    requires pending != [] && pending[|pending| - 1] == (block, depth)
    requires children == if block.Section? then block.blocks else []
    ensures var rest := pending[..|pending| - 1];
            var next := rest + At(children, depth + 1);
            && PendingSize(next) + 1 == PendingSize(pending)
            && (PendingValid(pending) <==> PendingValid(rest) && ValidBlock(block, depth))
            && (PendingValid(next) <==> PendingValid(rest) && ValidBlocks(children, depth + 1))
  {
    var rest := pending[..|pending| - 1];
    ExtendedSize(rest, children, depth + 1);
    ExtendedValid(rest, children, depth + 1);
    PoppedValid(pending);
  }

  // ----- The validator

  method CheckText(s: string, maximum: nat, issues: seq<Issue>) returns (found: seq<Issue>)
    ensures issues <= found
    ensures found == [] <==> issues == [] && BoundedText(s, maximum)
  {
    found := if s == "" || |s| > maximum then issues + [BadText] else issues;
  }

  method CheckItems(items: seq<string>, issues: seq<Issue>) returns (found: seq<Issue>)
    ensures issues <= found
    ensures found == [] <==> issues == [] && ValidItems(items)
  {
    found := if 1 <= |items| <= MAXIMUM_ITEMS then issues else issues + [BadList];
    for i := 0 to |items|
      invariant issues <= found
      invariant found == [] <==>
        issues == [] && 1 <= |items| <= MAXIMUM_ITEMS && forall j :: 0 <= j < i ==> BoundedText(items[j], MAXIMUM_TEXT)
    {
      found := CheckText(items[i], MAXIMUM_TEXT, found);
    }
  }

  /** One block, its children left to the stack. */
  method CheckBlock(b: Block, depth: nat, issues: seq<Issue>) returns (found: seq<Issue>, children: seq<Block>)
    ensures issues <= found
    ensures children == if b.Section? then b.blocks else []
    ensures found == [] && ValidBlocks(children, depth + 1) <==> issues == [] && ValidBlock(b, depth)
  {
    found, children := issues, [];
    match b {
      case Paragraph(text) => found := CheckText(text, MAXIMUM_TEXT, found);
      case Section(title, blocks) =>
        found := CheckText(title, MAXIMUM_TITLE, found);
        if depth >= MAXIMUM_DEPTH || blocks == [] { found := found + [BadSection]; }
        children := blocks;
      case BulletedList(items) => found := CheckItems(items, found);
      case NumberedList(items) => found := CheckItems(items, found);
    }
  }

  /** Reports no issue exactly for the documents the definition admits. */
  method Validate(d: Document) returns (issues: seq<Issue>)
    ensures issues == [] <==> ValidDocument(d)
  {
    issues := [];
    if d.format != "aep-service-document" || d.version != "1.0" || !ValidId(d.id) { issues := issues + [BadHeader]; }
    if d.content == [] || d.summary == Some([]) { issues := issues + [EmptyContent]; }
    issues := CheckBlocks(Roots(d), issues);
  }

  /** The worklist. It counts before it looks, and gives up past the limit. */
  method CheckBlocks(roots: seq<Block>, issues: seq<Issue>) returns (found: seq<Issue>)
    ensures issues <= found
    ensures found == [] <==> issues == [] && ValidBlocks(roots, 0) && TotalSize(roots) <= MAXIMUM_BLOCKS
  {
    found := issues;
    var pending := Start(roots);
    var count := 0;
    while pending != []
      invariant issues <= found && count <= MAXIMUM_BLOCKS
      invariant count + PendingSize(pending) == TotalSize(roots)
      invariant found == [] && PendingValid(pending) <==> issues == [] && ValidBlocks(roots, 0)
      decreases PendingSize(pending)
    {
      var (block, depth) := pending[|pending| - 1];
      count := count + 1;
      if count > MAXIMUM_BLOCKS { return found + [TooManyBlocks]; }
      var children;
      found, children := CheckBlock(block, depth, found);
      Replaced(pending, block, depth, children);
      pending := pending[..|pending| - 1] + At(children, depth + 1);
    }
  }

  method Start(roots: seq<Block>) returns (pending: Pending)
    ensures PendingSize(pending) == TotalSize(roots)
    ensures PendingValid(pending) <==> ValidBlocks(roots, 0)
  {
    pending := At(roots, 0);
    ExtendedSize([], roots, 0);
    ExtendedValid([], roots, 0);
    assert [] + At(roots, 0) == pending;
  }
}
