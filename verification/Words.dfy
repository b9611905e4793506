/** Disk blocks: 512 bytes that the kernel also reads as a table of 128 little-endian words. */
module Words {
  const BLOCK_SIZE := 512
  const WORDS_PER_BLOCK := 128
  const WORD_LIMIT := 0x1_0000_0000

  type byte = x: int | 0 <= x < 256

  type Block = s: seq<byte> | |s| == BLOCK_SIZE witness seq(BLOCK_SIZE, _ => 0)

  function ZeroBlock(): (b: Block) {
    seq(BLOCK_SIZE, _ => 0)
  }

  /** The word at table index `i`, as an unsigned number. */
  function Word(b: Block, i: int): (w: int)
    requires 0 <= i < WORDS_PER_BLOCK
    ensures 0 <= w < WORD_LIMIT
  {
    var b0: int, b1: int, b2: int, b3: int := b[4 * i], b[4 * i + 1], b[4 * i + 2], b[4 * i + 3];
    b0 + 0x100 * b1 + 0x1_0000 * b2 + 0x100_0000 * b3
  }

  function PutWord(b: Block, i: int, w: int): (r: Block)
    requires 0 <= i < WORDS_PER_BLOCK && 0 <= w < WORD_LIMIT
  {
    b[4 * i := w % 0x100]
     [4 * i + 1 := w / 0x100 % 0x100]
     [4 * i + 2 := w / 0x1_0000 % 0x100]
     [4 * i + 3 := w / 0x100_0000]
  }

  lemma BytesOfWord(w: int)
    requires 0 <= w < WORD_LIMIT
    ensures w == w % 0x100 + 0x100 * (w / 0x100 % 0x100) + 0x1_0000 * (w / 0x1_0000 % 0x100)
                 + 0x100_0000 * (w / 0x100_0000)
  {
    assert w / 0x1_0000 == w / 0x100 / 0x100;
    assert w / 0x100_0000 == w / 0x1_0000 / 0x100;
  }

  /** Storing a word and loading it back; every other word keeps its value. */
  lemma WordOfPut(b: Block, i: int, w: int, k: int)
    requires 0 <= i < WORDS_PER_BLOCK && 0 <= w < WORD_LIMIT && 0 <= k < WORDS_PER_BLOCK
    ensures Word(PutWord(b, i, w), k) == if k == i then w else Word(b, k)
  {
    BytesOfWord(w);
  }

  /** `DWordCopy` of `ws` into the table starting at index `at`. */
  function PutWords(b: Block, at: int, ws: seq<int>): (r: Block)
    requires 0 <= at && at + |ws| <= WORDS_PER_BLOCK
    requires forall k :: 0 <= k < |ws| ==> 0 <= ws[k] < WORD_LIMIT
    decreases |ws|
  {
    if ws == [] then b else PutWords(PutWord(b, at, ws[0]), at + 1, ws[1..])
  }

  lemma {:induction false} WordOfPuts(b: Block, at: int, ws: seq<int>, k: int)
    requires 0 <= at && at + |ws| <= WORDS_PER_BLOCK && 0 <= k < WORDS_PER_BLOCK
    requires forall k :: 0 <= k < |ws| ==> 0 <= ws[k] < WORD_LIMIT
    ensures Word(PutWords(b, at, ws), k) == if at <= k < at + |ws| then ws[k - at] else Word(b, k)
    decreases |ws|
  {
    if ws != [] {
      WordOfPuts(PutWord(b, at, ws[0]), at + 1, ws[1..], k);
      WordOfPut(b, at, ws[0], k);
    }
  }

  function WordRange(b: Block, from: int, to: int): (ws: seq<int>)
    requires 0 <= from <= to <= WORDS_PER_BLOCK
    ensures |ws| == to - from
    ensures forall k :: 0 <= k < |ws| ==> ws[k] == Word(b, from + k)
  {
    seq(to - from, k requires 0 <= k < to - from => Word(b, from + k))
  }
}
