/**
 The Internet checksum as the raw UDP server and client compute it.  `UdpReply` builds the packet that carries it.
 */
module Checksum {

  type Byte = x: int | 0 <= x < 0x100
  type Word = x: int | 0 <= x < 0x1_0000

  // ---------- The sum ----------

  /** One's complement addition of section 1 of RFC 1071: the carry is added back. */
  function OnesAdd(a: Word, b: Word): Word {
    if a + b > 0xffff then a + b - 0xffff else a + b
  }

  function OnesSum(ws: seq<Word>): Word {
    if ws == [] then 0 else OnesAdd(OnesSum(ws[..|ws| - 1]), ws[|ws| - 1])
  }

  /** The checksum: the complement of the one's complement sum. */
  function Complement(ws: seq<Word>): Word {
    0xffff - OnesSum(ws)
  }

  const ULONG: int := 0x1_0000_0000_0000_0000

  /** csum: the accumulator is a 64-bit integer, folded once for every word. */
  method Csum(buf: seq<Word>) returns (c: Word)
    ensures c == Complement(buf)
  {
    var sum := 0;
    var i := 0;
    while i < |buf|
      invariant 0 <= i <= |buf|
      invariant 0 <= sum <= 0xffff
      invariant sum == OnesSum(buf[..i])
    {
      assert buf[..i + 1][..i] == buf[..i];
      sum := (sum + buf[i]) % ULONG;
      sum := sum / 0x1_0000 + sum % 0x1_0000;
      i := i + 1;
    }
    assert buf[..|buf|] == buf;
    c := (ULONG - 1 - sum) % 0x1_0000;
  }

  // ---------- The sum as arithmetic modulo 0xffff ----------

  function Sum(ws: seq<Word>): nat {
    if ws == [] then 0 else Sum(ws[..|ws| - 1]) + ws[|ws| - 1]
  }

  /** The representative of `t` modulo 0xffff, in 1..0xffff unless `t` is 0. */
  function Norm(t: nat): Word {
    if t == 0 then 0 else (t - 1) % 0xffff + 1
  }

  lemma NormAdd(t: nat, w: Word)
    ensures Norm(t + w) == OnesAdd(Norm(t), w)
  {
    if t > 0 {
      var q := (t - 1) / 0xffff;
      assert t - 1 == q * 0xffff + (t - 1) % 0xffff;
      var x := (t - 1) % 0xffff + w;
      assert t + w - 1 == q * 0xffff + x;
      ModShift(q, x);
      if x >= 0xffff {
        if x >= 2 * 0xffff {
          assert false;
        }
        ModShift(1, x - 0xffff);
      }
    }
  }

  lemma ModShift(q: int, x: int)
    ensures (q * 0xffff + x) % 0xffff == x % 0xffff
  {
  }

  /** The whole sum has a closed form. */
  lemma {:induction false} OnesSumClosed(ws: seq<Word>)
    ensures OnesSum(ws) == Norm(Sum(ws))
  {
    if ws != [] {
      OnesSumClosed(ws[..|ws| - 1]);
      NormAdd(Sum(ws[..|ws| - 1]), ws[|ws| - 1]);
    }
  }

  lemma {:induction false} SumConcat(a: seq<Word>, b: seq<Word>)
    ensures Sum(a + b) == Sum(a) + Sum(b)
  {
    if b == [] {
      assert a + b == a;
    } else {
      SumConcat(a, b[..|b| - 1]);
      assert (a + b)[..|a + b| - 1] == a + b[..|b| - 1];
    }
  }

  // ---------- Byte order (section 2 of RFC 1071) ----------

  function Swap(w: Word): Word {
    w % 0x100 * 0x100 + w / 0x100
  }

  function SwapAll(ws: seq<Word>): (r: seq<Word>)
    ensures |r| == |ws|
  {
    seq(|ws|, i requires 0 <= i < |ws| => Swap(ws[i]))
  }

  /** Swapping bytes is multiplying by 256 modulo 0xffff. */
  lemma SwapIsTimes256(w: Word)
    ensures Swap(w) == 0x100 * w - 0xffff * (w / 0x100)
    ensures Swap(w) == 0 <==> w == 0
    ensures Swap(w) == 0xffff <==> w == 0xffff
    ensures Swap(0xffff - w) == 0xffff - Swap(w)
  {
    assert w == w / 0x100 * 0x100 + w % 0x100;
  }

  lemma {:induction false} SwapSum(ws: seq<Word>) returns (k: int)
    ensures Sum(SwapAll(ws)) == 0x100 * Sum(ws) - 0xffff * k
    ensures Sum(SwapAll(ws)) == 0 <==> Sum(ws) == 0
  {
    if ws == [] {
      k := 0;
    } else {
      var ws0, w := ws[..|ws| - 1], ws[|ws| - 1];
      var k0 := SwapSum(ws0);
      SwapIsTimes256(w);
      assert SwapAll(ws)[..|ws| - 1] == SwapAll(ws0);
      k := k0 + w / 0x100;
    }
  }

  /** `Norm` is the only word congruent to a positive `t` and not 0. */
  lemma NormUnique(t: nat, w: Word, k: int)
    requires t > 0 && w > 0 && t == w + 0xffff * k
    ensures Norm(t) == w
  {
    ModShift(k, w - 1);
  }

  /** Swapping the bytes of every word swaps the bytes of the sum. */
  lemma SumCommutesWithSwap(ws: seq<Word>)
    ensures OnesSum(SwapAll(ws)) == Swap(OnesSum(ws))
    ensures Complement(SwapAll(ws)) == Swap(Complement(ws))
  {
    OnesSumClosed(ws);
    OnesSumClosed(SwapAll(ws));
    var k := SwapSum(ws);
    var t := Sum(ws);
    if t > 0 {
      var n := Norm(t);
      var q := (t - 1) / 0xffff;
      assert t == n + 0xffff * q;
      SwapIsTimes256(n);
      NormUnique(Sum(SwapAll(ws)), Swap(n), 0x100 * q + n / 0x100 - k);
    }
    SwapIsTimes256(OnesSum(ws));
  }

  // ---------- Words in memory ----------

  function Little(a: Byte, b: Byte): Word { a + 0x100 * b }

  function Big(a: Byte, b: Byte): Word { 0x100 * a + b }

  /** The bytes as words, low byte first; the byte after an odd length counts as zero. */
  function LittleWords(bs: seq<Byte>): (ws: seq<Word>)
    ensures |ws| == (|bs| + 1) / 2
  {
    seq((|bs| + 1) / 2, i requires 0 <= i < (|bs| + 1) / 2 =>
      Little(bs[2 * i], if 2 * i + 1 < |bs| then bs[2 * i + 1] else 0))
  }

  /** The same, high byte first: the order of the network. */
  function BigWords(bs: seq<Byte>): (ws: seq<Word>)
    ensures |ws| == (|bs| + 1) / 2
  {
    seq((|bs| + 1) / 2, i requires 0 <= i < (|bs| + 1) / 2 =>
      Big(bs[2 * i], if 2 * i + 1 < |bs| then bs[2 * i + 1] else 0))
  }

  /** How a machine of either byte order stores a word. */
  function StoreLittle(w: Word): (bs: seq<Byte>)
    ensures |bs| == 2
  {
    [w % 0x100, w / 0x100]
  }

  function StoreBig(w: Word): (bs: seq<Byte>)
    ensures |bs| == 2
  {
    [w / 0x100, w % 0x100]
  }

  lemma SwapOfBig(a: Byte, b: Byte)
    ensures Little(a, b) == Swap(Big(a, b))
  {
    assert Big(a, b) / 0x100 == a && Big(a, b) % 0x100 == b;
  }

  lemma StoreSwapped(w: Word)
    ensures StoreLittle(Swap(w)) == StoreBig(w)
  {
    assert Swap(w) % 0x100 == w / 0x100 && Swap(w) / 0x100 == w % 0x100;
  }

  lemma LittleIsSwappedBig(bs: seq<Byte>)
    ensures LittleWords(bs) == SwapAll(BigWords(bs))
  {
    var ls, gs := LittleWords(bs), BigWords(bs);
    forall i | 0 <= i < |gs| ensures ls[i] == Swap(gs[i]) {
      SwapOfBig(bs[2 * i], if 2 * i + 1 < |bs| then bs[2 * i + 1] else 0);
    }
  }

  /** Summing in host order and storing in host order gives the bytes the network order would give. */
  lemma HostOrderSuffices(bs: seq<Byte>)
    ensures StoreLittle(Complement(LittleWords(bs))) == StoreBig(Complement(BigWords(bs)))
    ensures Complement(LittleWords(bs)) == 0 <==> Complement(BigWords(bs)) == 0
  {
    LittleIsSwappedBig(bs);
    SumCommutesWithSwap(BigWords(bs));
    StoreSwapped(Complement(BigWords(bs)));
    SwapIsTimes256(Complement(BigWords(bs)));
  }

  // ---------- Checking what was stored ----------

  lemma SumReplace(ws: seq<Word>, i: nat, c: Word)
    requires i < |ws|
    ensures Sum(ws[i := c]) == Sum(ws) - ws[i] + c
  {
    var before, after := ws[..i], ws[i + 1..];
    SumAround(before, ws[i], after);
    SumAround(before, c, after);
    assert before + [ws[i]] + after == ws;
    assert before + [c] + after == ws[i := c];
  }

  lemma SumAround(a: seq<Word>, w: Word, b: seq<Word>)
    ensures Sum(a + [w] + b) == Sum(a) + w + Sum(b)
  {
    SumConcat(a + [w], b);
    assert (a + [w])[..|a|] == a;
  }

  /** The complement of a sum that is `d` too high completes the sum itself to a multiple of 0xffff iff `d` is 0. */
  lemma NormCompletes(t: nat, d: nat)
    requires d < 0xffff
    ensures Norm(t + (0xffff - Norm(t + d))) == 0xffff <==> d == 0
  {
    if t + d > 0 {
      var n, q := Norm(t + d), (t + d - 1) / 0xffff;
      assert t + d == n + 0xffff * q;
      NormUnique(t + (0xffff - n), 0xffff - d, q);
    }
  }

  /** Word `i` filled in with the checksum of a sum that was `d` too high: the whole checks to zero iff `d` is 0. */
  lemma CheckedWords(ws: seq<Word>, i: nat, summed: seq<Word>, d: nat)
    requires i < |ws| && ws[i] == 0
    requires Sum(summed) == Sum(ws) + d && d < 0xffff
    ensures Complement(ws[i := Complement(summed)]) == 0 <==> d == 0
  {
    var c := Complement(summed);
    OnesSumClosed(summed);
    OnesSumClosed(ws[i := c]);
    SumReplace(ws, i, c);
    NormCompletes(Sum(ws), d);
  }

  /** Storing a host-order word at an even offset replaces that word. */
  lemma StoreReplacesWord(bs: seq<Byte>, at: nat, w: Word)
    requires at % 2 == 0 && at + 1 < |bs|
    ensures LittleWords(bs[..at] + StoreLittle(w) + bs[at + 2..]) == LittleWords(bs)[at / 2 := w]
  {
    var bs' := bs[..at] + StoreLittle(w) + bs[at + 2..];
    forall i | 0 <= i < |LittleWords(bs)| ensures LittleWords(bs')[i] == LittleWords(bs)[at / 2 := w][i] {
      if i == at / 2 {
        assert bs'[2 * i] == w % 0x100 && bs'[2 * i + 1] == w / 0x100;
      } else {
        assert bs'[2 * i] == bs[2 * i];
        assert 2 * i + 1 < |bs| ==> bs'[2 * i + 1] == bs[2 * i + 1];
      }
    }
  }

  /** The bytes csum reads when asked for all of `bs`: with an odd length, one more byte that lies past it. */
  function Read(bs: seq<Byte>, past: Byte): seq<Byte> {
    if |bs| % 2 == 0 then bs else bs + [past]
  }

  lemma SumOfRead(bs: seq<Byte>, past: Byte)
    ensures Sum(LittleWords(Read(bs, past))) == Sum(LittleWords(bs)) + (if |bs| % 2 == 0 then 0 else 0x100 * past)
  {
    if |bs| % 2 == 1 {
      var ws, last := LittleWords(bs), |bs| / 2;
      var w := Little(bs[|bs| - 1], past);
      assert LittleWords(bs + [past]) == ws[last := w];
      SumReplace(ws, last, w);
    }
  }

  /** A zero field at an even offset is filled with the checksum of what csum read.  The whole then checks to
      zero, in either byte order, iff its length is even or the byte past it was zero. */
  lemma StoredChecksumVerifies(bs: seq<Byte>, at: nat, past: Byte)
    requires at % 2 == 0 && at + 1 < |bs| && bs[at] == 0 && bs[at + 1] == 0
    ensures var bs' := bs[..at] + StoreLittle(Complement(LittleWords(Read(bs, past)))) + bs[at + 2..];
            && (Complement(LittleWords(bs')) == 0 <==> |bs| % 2 == 0 || past == 0)
            && (Complement(BigWords(bs')) == 0 <==> |bs| % 2 == 0 || past == 0)
  {
    var ws, summed := LittleWords(bs), LittleWords(Read(bs, past));
    StoreReplacesWord(bs, at, Complement(summed));
    assert ws[at / 2] == 0;
    SumOfRead(bs, past);
    CheckedWords(ws, at / 2, summed, if |bs| % 2 == 0 then 0 else 0x100 * past);
    HostOrderSuffices(bs[..at] + StoreLittle(Complement(summed)) + bs[at + 2..]);
  }
}
