/** Boost_Searcher/data/input/boost_asio/example/cpp11/icmp/icmp_header.hpp: the ICMP header and its Internet checksum, which is
    the complement of the one's-complement sum of all 16-bit words (section 1 of RFC 1071). */
module IcmpHeader {

  const UINT32: nat := 0x1_0000_0000

  type Byte = b: nat | b < 0x100
  type Word = w: nat | w < 0x1_0000

  /** `b << 8` */
  function High(b: Byte): Word {
    b as nat * 0x100
  }

  // ---------------------------------------------------------------- one's-complement arithmetic

  /** One's-complement addition of 16-bit words: a carry out of the top comes back in at the bottom. */
  function OnesAdd(a: Word, b: Word): Word {
    if a + b > 0xffff then a + b - 0xffff else a + b
  }

  function OnesSum(words: seq<Word>): Word {
    if words == [] then 0 else OnesAdd(OnesSum(words[..|words| - 1]), words[|words| - 1])
  }

  function Sum(words: seq<Word>): nat {
    if words == [] then 0 else Sum(words[..|words| - 1]) + words[|words| - 1]
  }

  /** The words of a body; an odd last byte is the high byte of a word. */
  function Words(body: seq<Byte>): seq<Word> {
    if |body| == 0 then []
    else if |body| == 1 then [High(body[0])]
    else [High(body[0]) + body[1]] + Words(body[2..])
  }

  /** Word `k` of a body is made of bytes `2k` and `2k + 1`, high byte first; behind an odd number of bytes a zero is taken. */
  lemma {:induction false} WordsAreBytePairs(body: seq<Byte>, k: nat)
    ensures 2 * |Words(body)| == |body| + |body| % 2
    ensures 2 * k + 1 < |body| ==> Words(body)[k] == 256 * body[2 * k] as nat + body[2 * k + 1]
    ensures 2 * k + 1 == |body| ==> Words(body)[k] == 256 * body[2 * k] as nat
    decreases |body|
  {
    if |body| >= 2 {
      WordsAreBytePairs(body[2..], if k > 0 then k - 1 else 0);
    }
  }

  lemma {:induction false} SumAppend(a: seq<Word>, b: seq<Word>)
    ensures Sum(a + b) == Sum(a) + Sum(b)
    decreases |b|
  {
    if b == [] {
      assert a + b == a;
    } else {
      var n := |b| - 1;
      SumAppend(a, b[..n]);
      assert (a + b)[..|a + b| - 1] == a + b[..n];
    }
  }

  /** The one's-complement sum is the sum without some multiple of 0xffff, and zero only for a sum of zero. */
  lemma {:induction false} OnesSumReduces(words: seq<Word>) returns (q: nat)
    ensures Sum(words) == OnesSum(words) + 0xffff * q
    ensures OnesSum(words) == 0 ==> Sum(words) == 0
  {
    if words == [] {
      q := 0;
    } else {
      var n := |words| - 1;
      q := OnesSumReduces(words[..n]);
      if OnesSum(words[..n]) + words[n] > 0xffff {
        q := q + 1;
      }
    }
  }

  // ---------------------------------------------------------------- the checksum

  /** The two folds and the complement, of a 32-bit sum. */
  function Folded(sum: nat): (c: Word)
    requires sum < UINT32
  {
    var once := sum / 0x1_0000 + sum % 0x1_0000;
    var twice := once + once / 0x1_0000;
    0xffff - twice % 0x1_0000
  }

  /** Two folds are enough: they give the whole 32-bit sum, reduced to 16 bits. */
  lemma TwoFoldsSuffice(sum: nat) returns (q: nat)
    requires sum < UINT32
    ensures sum == (0xffff - Folded(sum)) + 0xffff * q
  {
    var high, low := sum / 0x1_0000, sum % 0x1_0000;
    var once := high + low;
    assert sum == 0x1_0000 * high + low;
    if once < 0x1_0000 {
      q := high;
    } else {
      assert once <= 0x1_fffe && once / 0x1_0000 == 1;
      q := high + 1;
    }
  }

  /** A receiver accepts the header and the body. */
  predicate Verifies(header: seq<Word>, body: seq<Byte>) {
    OnesSum(header + Words(body)) == 0xffff
  }

  /** The words that `compute_checksum` adds up. */
  function Total(first: Word, identifier: Word, sequence: Word, body: seq<Byte>): nat {
    first + identifier + sequence + Sum(Words(body))
  }

  /** The stored checksum verifies exactly if the carries lost beyond 32 bits are a multiple of 0xffff. */
  lemma ChecksumVerifiesExactly(first: Word, identifier: Word, sequence: Word, body: seq<Byte>)
    ensures var total := Total(first, identifier, sequence, body);
            Verifies([first, Folded(total % UINT32), identifier, sequence], body) <==> (total / UINT32) % 0xffff == 0
  {
    var total := Total(first, identifier, sequence, body);
    var lost, sum := total / UINT32, total % UINT32;
    var c := Folded(sum);
    var header := [first, c, identifier, sequence];
    var q1 := TwoFoldsSuffice(sum);
    hide Folded;
    var q2 := OnesSumReduces(header + Words(body));
    SumAppend(header, Words(body));
    SumOfFour(first, c, identifier, sequence);
    var ones := OnesSum(header + Words(body));
    hide *;
    assert total == UINT32 * lost + sum;
    assert ones + 0xffff * q2 == lost + 0xffff * (0x1_0001 * lost + q1 + 1);
    SameResidue(ones, lost, q2, 0x1_0001 * lost + q1 + 1);
  }

  lemma SumOfFour(a: Word, b: Word, c: Word, d: Word)
    ensures Sum([a, b, c, d]) == a + b + c + d
  {
    SumSnoc([], a);
    SumSnoc([a], b);
    SumSnoc([a, b], c);
    SumSnoc([a, b, c], d);
    assert [] + [a] == [a] && [a] + [b] == [a, b] && [a, b] + [c] == [a, b, c] && [a, b, c] + [d] == [a, b, c, d];
  }

  lemma SumSnoc(words: seq<Word>, w: Word)
    ensures Sum(words + [w]) == Sum(words) + w
  {
    assert (words + [w])[..|words|] == words;
  }

  /** A non-zero 16-bit value congruent to `x` is 0xffff exactly if `x` is a multiple of 0xffff. */
  lemma SameResidue(ones: Word, x: nat, q: nat, p: nat)
    requires ones != 0 && ones + 0xffff * q == x + 0xffff * p
    ensures ones == 0xffff <==> x % 0xffff == 0
  {
    var k, r := x / 0xffff, x % 0xffff;
    assert x == 0xffff * k + r;
    assert ones == r + 0xffff * (k + p - q);
  }

  /** For every body whose sum fits 32 bits the stored checksum verifies. */
  lemma ChecksumVerifies(first: Word, identifier: Word, sequence: Word, body: seq<Byte>)
    requires Total(first, identifier, sequence, body) < UINT32
    ensures Verifies([first, Folded(Total(first, identifier, sequence, body)), identifier, sequence], body)
  {
    hide Verifies, Folded, Total;
    ChecksumVerifiesExactly(first, identifier, sequence, body);
  }

  lemma {:induction false} SumOfOnes(body: seq<Byte>, n: nat)
    requires |body| == 2 * n && forall i :: 0 <= i < |body| ==> body[i] == 0xff
    ensures Sum(Words(body)) == 0xffff * n
    decreases n
  {
    if n > 0 {
      var rest := body[2..];
      SumOfOnes(rest, n - 1);
      assert Words(body) == [0xffff] + Words(rest);
      SumAppend([0xffff], Words(rest));
      assert [0xffff][..0] == [];
    }
  }

  /** A long body that overflows 32 bits by one carry is refused. */
  lemma LongBodyFails(body: seq<Byte>)
    requires |body| == 0x2_0002 && forall i :: 0 <= i < |body| ==> body[i] == 0xff
    ensures Total(1, 0, 0, body) == UINT32
    ensures !Verifies([1, Folded(0), 0, 0], body)
  {
    SumOfOnes(body, 0x1_0001);
    hide Verifies, Folded, Words;
    ChecksumVerifiesExactly(1, 0, 0, body);
  }

  // ---------------------------------------------------------------- the header

  class IcmpHeader {
    const rep: array<Byte>

    constructor ()
      ensures rep.Length == 8 && fresh(rep)
      ensures forall i :: 0 <= i < 8 ==> rep[i] == 0
    {
      rep := new Byte[8](_ => 0);
    }

    function Decode(a: nat, b: nat): Word
      requires a < rep.Length && b < rep.Length
      reads rep
    {
      High(rep[a]) + rep[b]
    }

    method Encode(a: nat, b: nat, n: Word)
      requires a < rep.Length && b < rep.Length && a != b
      modifies rep
      ensures Decode(a, b) == n && 256 * rep[a] as nat + rep[b] == n
      ensures forall i :: 0 <= i < rep.Length && i != a && i != b ==> rep[i] == old(rep[i])
    {
      rep[a] := n / 0x100;
      rep[b] := n % 0x100;
    }

    /** The four words of the header, the second of them the checksum. */
    function Header(): (ws: seq<Word>)
      requires rep.Length == 8
      reads rep
      ensures |ws| == 4 && forall k :: 0 <= k < 4 ==> ws[k] == 256 * rep[2 * k] as nat + rep[2 * k + 1]
    {
      [Decode(0, 1), Decode(2, 3), Decode(4, 5), Decode(6, 7)]
    }

    /** Stores the checksum; no other field changes. */
    method ComputeChecksum(body: seq<Byte>)
      requires rep.Length == 8
      modifies rep
      ensures Header() == old(Header())[1 := Folded(Total(old(Decode(0, 1)), old(Decode(4, 5)), old(Decode(6, 7)), body) % UINT32)]
      ensures Verifies(Header(), body) <==>
              (Total(Decode(0, 1), Decode(4, 5), Decode(6, 7), body) / UINT32) % 0xffff == 0
    {
      hide Verifies, Folded, Words, Sum;
      var first, identifier, sequence := High(rep[0]) + rep[1], Decode(4, 5), Decode(6, 7);
      var sum := SumBody(first + identifier + sequence, body);
      Store(sum);
      assert Header() == [first, Folded(Total(first, identifier, sequence, body) % UINT32), identifier, sequence];
      ChecksumVerifiesExactly(first, identifier, sequence, body);
    }

    /** Folds twice, complements and stores. */
    method Store(total: nat)
      requires rep.Length == 8 && total < UINT32
      modifies rep
      ensures Header() == old(Header())[1 := Folded(total)]
    {
      var sum := total / 0x1_0000 + total % 0x1_0000;
      sum := sum + sum / 0x1_0000;
      Encode(2, 3, 0xffff - sum % 0x1_0000);
    }
  }

  /** Adds the words of the body to a 32-bit sum, byte by byte, in wrapping arithmetic. */
  method SumBody(start: nat, body: seq<Byte>) returns (sum: nat)
    requires start < UINT32
    ensures sum == (start + Sum(Words(body))) % UINT32
  {
    hide Words, Sum, High;
    sum := start;
    ghost var full: nat := start;
    var i := 0;
    assert body[0..] == body;
    while i != |body|
      invariant 0 <= i <= |body| && sum == full % UINT32
      invariant full + Sum(Words(body[i..])) == start + Sum(Words(body))
    {
      NextWord(body, i);
      ModAdd(full, High(body[i]));
      sum := (sum + High(body[i])) % UINT32;
      full := full + High(body[i]);
      i := i + 1;
      if i != |body| {
        ModAdd(full, body[i]);
        sum := (sum + body[i]) % UINT32;
        full := full + body[i];
        i := i + 1;
      }
    }
    NoWords(body[i..]);
  }

  /** What one round of the loop takes off the rest of the body. */
  lemma NextWord(body: seq<Byte>, i: nat)
    requires i < |body|
    ensures Sum(Words(body[i..])) ==
            if i + 1 == |body| then High(body[i]) + Sum(Words(body[i + 1..]))
            else High(body[i]) + body[i + 1] + Sum(Words(body[i + 2..]))
  {
    var tail := body[i..];
    if i + 1 == |body| {
      assert tail == [body[i]] && body[i + 1..] == [];
      SumSnoc([], High(body[i]));
      assert [] + [High(body[i])] == [High(body[i])];
    } else {
      assert tail[2..] == body[i + 2..];
      var w: Word := High(tail[0]) + tail[1];
      SumAppend([w], Words(tail[2..]));
      SumSnoc([], w);
      assert [] + [w] == [w];
    }
  }

  lemma NoWords(body: seq<Byte>)
    requires body == []
    ensures Sum(Words(body)) == 0
  {
  }

  lemma ModAdd(a: nat, b: nat)
    ensures (a % UINT32 + b) % UINT32 == (a + b) % UINT32
  {
    var x := a % UINT32 + b;
    Remainder(a + b, a / UINT32 + x / UINT32, x % UINT32);
  }

  lemma Remainder(n: nat, q: nat, r: nat)
    requires n == UINT32 * q + r && r < UINT32
    ensures n % UINT32 == r
  {
  }
}
