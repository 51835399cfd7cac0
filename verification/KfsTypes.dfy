/** The values KonjacFS keeps on disk and in memory.

    A checksum is modelled as an ideal hash: `Bp.sum` *is* the contents the pointer was made for.
    Two block runs have the same checksum exactly when they have the same contents, which is what
    collision-freedom means, and "the blocks on disk hash to the pointer's checksum" becomes
    equality of contents. A pointer therefore determines everything below it (a Merkle tree);
    whether the disk still holds those contents is a separate question, and the one that crash
    safety is about. */
module KfsTypes {
  const BLOCK: nat := 4096
  const HEADER: nat := 64
  const ITEM_HEADER: nat := 24
  const INTERIOR_ENTRY: nat := 56
  const BP_SIZE: nat := 32
  const INODE_SIZE: nat := 128
  const INDEX_MAX: nat := 126
  const BITS_PER_BITMAP: nat := 32768
  const WORD: nat := 64
  const SB_FIRST: nat := 1
  const SB_SLOTS: nat := 8
  const DATA_START: nat := 16
  const INLINE_MAX: nat := 2048
  const EXTENT_MAX: nat := 65536
  const EXTENT_BLOCKS: nat := 16
  const RESERVE_MIN: nat := 64
  const DIRTY_LIMIT: nat := 128
  const NAME_MAX: nat := 255
  const U64: nat := 0x1_0000_0000_0000_0000

  const K_INODE: nat := 1
  const K_DIR_ENTRY: nat := 2
  const K_INLINE: nat := 3
  const K_EXTENT: nat := 4

  /** A key `(object, kind, offset)`, packed so that `<` on the packed number is the order on
      keys (see KeyOrder). */
  type Key = nat

  function K(obj: nat, kind: nat, off: nat): Key {
    (obj * 256 + kind) * U64 + off
  }

  ghost predicate KeyParts(obj: nat, kind: nat, off: nat) {
    kind < 256 && off < U64
  }

  datatype Inode = Inode(dir: bool, size: nat, links: nat, blocks: nat, modified: nat)

  datatype Data =
    | Ino(inode: Inode)
    | Ent(child: nat, dir: bool, name: seq<char>)
    | Inl(bytes: seq<int>)
    | Ext(bp: Bp, length: nat)

  datatype Item = Item(key: Key, data: Data)

  /** An interior entry as it is on disk: a lower bound for the child's keys, and the child. */
  datatype Ptr = Ptr(key: Key, bp: Bp)

  /** A block pointer: `count` blocks from `block` on, the commit that wrote them, and what they
      must contain. */
  datatype Bp = Bp(block: nat, count: nat, birth: nat, sum: seq<Block>)

  datatype Super = Super(total: nat, txg: nat, root: Bp, bitmap: Bp, free: nat, next: nat)

  datatype Block =
    | NodeB(level: nat, birth: nat, items: seq<Item>, ptrs: seq<Ptr>)
    | IndexB(level: nat, birth: nat, bps: seq<Bp>)
    | BitsB(bits: seq<bool>)
    | DataB(bytes: seq<int>)
    | SuperB(sb: Super)
    | Junk(id: nat)

  datatype Error = Io | Damaged | TooDeep | Full | Refused

  datatype Result<+T> = Ok(value: T) | Err(error: Error) {
    predicate IsFailure() { Err? }
    function PropagateFailure<U>(): Result<U>
      requires Err?
    {
      Err(error)
    }
    function Extract(): T
      requires Ok?
    {
      value
    }
  }

  /** What an item's payload takes in a leaf. */
  function DataSize(d: Data): nat {
    match d
    case Ino(_) => INODE_SIZE
    case Ent(_, _, name) => 10 + |name|
    case Inl(bytes) => |bytes|
    case Ext(_, _) => BP_SIZE + 8
  }

  function Bit(b: bool): nat { if b then 1 else 0 }

  /** How often block `b` is among the blocks `bp` points at. */
  function BpUses(bp: Bp, b: nat): nat {
    if bp.block <= b < bp.block + bp.count then 1 else 0
  }

  /** The blocks `bp` points at still hold what they were written with. */
  ghost predicate BpOnDisk(disk: seq<Block>, bp: Bp) {
    && bp.block + bp.count <= |disk|
    && |bp.sum| == bp.count
    && disk[bp.block..bp.block + bp.count] == bp.sum
  }

  // --- The packed key order ---

  /** Packed keys compare exactly as the triples do, and no two triples pack alike. */
  lemma KeyOrder(o: nat, k: nat, f: nat, o': nat, k': nat, f': nat)
    requires KeyParts(o, k, f) && KeyParts(o', k', f')
    ensures K(o, k, f) < K(o', k', f') <==> o < o' || (o == o' && (k < k' || (k == k' && f < f')))
    ensures K(o, k, f) == K(o', k', f') <==> o == o' && k == k' && f == f'
  {
    var h, h' := o * 256 + k, o' * 256 + k';
    if h < h' {
      assert (h + 1) * U64 <= h' * U64;
    } else if h' < h {
      assert (h' + 1) * U64 <= h * U64;
    }
  }
}
