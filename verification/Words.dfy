/** 32-bit words and the bytes that hold them, in little-endian order. */
module Words {
  type Byte = x: int | 0 <= x < 256
  type Word = x: int | 0 <= x < 0x1_0000_0000

  /** The parts of something that arrives in parts, put together. */
  function Concat<T>(parts: seq<seq<T>>): (s: seq<T>) {
    if parts == [] then [] else parts[0] + Concat(parts[1..])
  }

  function Wrap(x: int): Word { x % 0x1_0000_0000 }

  function WordBytes(w: Word): (b: seq<Byte>)
    ensures |b| == 4
  {
    var w1: int := w / 0x100;
    var w2: int := w / 0x1_0000;
    [w % 256, w1 % 256, w2 % 256, w / 0x100_0000]
  }

  function ReadWord(b: seq<Byte>): (w: Word)
    requires |b| == 4
  {
    var b0: int, b1: int, b2: int, b3: int := b[0], b[1], b[2], b[3];
    b0 + 0x100 * b1 + 0x1_0000 * b2 + 0x100_0000 * b3
  }

  lemma ReadWordBytes(w: Word)
    ensures ReadWord(WordBytes(w)) == w
  {
    var w1: int := w / 0x100;
    var w2: int := w / 0x1_0000;
    assert w1 == w1 % 256 + 0x100 * w2;
    assert w2 == w2 % 256 + 0x100 * (w / 0x100_0000);
  }

  /** The words in a block of bytes, as a cast to an array of words reads them. */
  function ReadWords(b: seq<Byte>): (ws: seq<Word>)
    ensures |ws| == |b| / 4
  {
    seq(|b| / 4, i requires 0 <= i < |b| / 4 => ReadWord(b[4 * i..4 * i + 4]))
  }

  lemma ReadWordsAppend(b: seq<Byte>, w: Word)
    requires |b| % 4 == 0
    ensures ReadWords(b + WordBytes(w)) == ReadWords(b) + [w]
  {
    var b' := b + WordBytes(w);
    ReadWordBytes(w);
    forall i | 0 <= i < |b'| / 4 ensures ReadWords(b')[i] == (ReadWords(b) + [w])[i] {
      assert b'[4 * i..4 * i + 4] == if i < |b| / 4 then b[4 * i..4 * i + 4] else WordBytes(w);
    }
  }

  lemma ReadWordsDrop(b: seq<Byte>, k: nat)
    requires |b| % 4 == 0 && 4 * k <= |b|
    ensures ReadWords(b[4 * k..]) == ReadWords(b)[k..]
  {
    forall i | 0 <= i < |b| / 4 - k ensures ReadWords(b[4 * k..])[i] == ReadWords(b)[k + i] {
      assert b[4 * k..][4 * i..4 * i + 4] == b[4 * (k + i)..4 * (k + i) + 4];
    }
  }

  lemma ReadWordsConcat(a: seq<Byte>, b: seq<Byte>)
    requires |a| % 4 == 0
    ensures ReadWords(a + b) == ReadWords(a) + ReadWords(b)
  {
    forall i | 0 <= i < |a + b| / 4 ensures ReadWords(a + b)[i] == (ReadWords(a) + ReadWords(b))[i] {
      if i < |a| / 4 {
        assert (a + b)[4 * i..4 * i + 4] == a[4 * i..4 * i + 4];
      } else {
        var j := i - |a| / 4;
        assert (a + b)[4 * i..4 * i + 4] == b[4 * j..4 * j + 4];
      }
    }
  }
}
