/**
 The generator of fresh flows: two 32-bit counters, one running down and one up, written
 into the MAC addresses of each frame and then partly overwritten.
 */
module PacketMaker {
  import opened Bytes

  /** The addresses repeat after this many packets. */
  const PERIOD: int := 0x100_0000

  function SrcCounter(n: nat): u32 {
    (TWO32 - 2 - n) % TWO32
  }

  function DstCounter(n: nat): u32 {
    n % TWO32
  }

  type Mac = Bytes

  /** Six zero bytes, the counter over the last four, then the fixed bytes over some. */
  function SrcMac(n: nat): (m: Mac)
    ensures |m| == 6
  {
    ([0, 0] + Be32(SrcCounter(n)))[0 := 0x00][1 := 0x02][2 := 0xb3]
  }

  function DstMac(n: nat): (m: Mac)
    ensures |m| == 6
  {
    ([0, 0] + Be32(DstCounter(n)))[2 := 0x0c]
  }

  /** Overwriting the top counter byte leaves the low 24 bits. */
  lemma LowBytes(c: u32)
    ensures Be32(c)[1] as int * 0x1_0000 + Be32(c)[2] as int * 0x100 + Be32(c)[3] == c % PERIOD
  {
    assert Be32(c)[1] == c / 0x1_0000 % 0x100;
    assert Be32(c)[2] == c % 0x1_0000 / 0x100;
    assert Be32(c)[3] == c % 0x1_0000 % 0x100;
  }

  lemma SameTail(c: u32, d: u32)
    ensures Be32(c)[1..] == Be32(d)[1..] <==> c % PERIOD == d % PERIOD
  {
    LowBytes(c);
    LowBytes(d);
    var b, e := Be32(c), Be32(d);
    assert b[1..] == [b[1], b[2], b[3]] && e[1..] == [e[1], e[2], e[3]];
    if c % PERIOD == d % PERIOD {
      Digits(b[1], b[2], b[3], e[1], e[2], e[3]);
    }
  }

  lemma Digits(a: u8, b: u8, c: u8, x: u8, y: u8, z: u8)
    requires (a as int) * 0x1_0000 + (b as int) * 0x100 + c == (x as int) * 0x1_0000 + (y as int) * 0x100 + z
    ensures a == x && b == y && c == z
  {
  }

  lemma WholePeriods(x: int, q: int)
    ensures (x + PERIOD * q) % PERIOD == x % PERIOD
  {
  }

  lemma CounterResidues(n: nat)
    ensures DstCounter(n) % PERIOD == n % PERIOD
    ensures SrcCounter(n) % PERIOD == (PERIOD - 2 - n) % PERIOD
  {
    var p, q := n / TWO32, (TWO32 - 2 - n) / TWO32;
    assert DstCounter(n) == n + PERIOD * (-256 * p);
    WholePeriods(n, -256 * p);
    assert SrcCounter(n) == PERIOD - 2 - n + PERIOD * (255 - 256 * q);
    WholePeriods(PERIOD - 2 - n, 255 - 256 * q);
  }

  lemma MacTail(n: nat)
    ensures SrcMac(n) == [0x00, 0x02, 0xb3] + Be32(SrcCounter(n))[1..]
    ensures DstMac(n) == [0x00, 0x00, 0x0c] + Be32(DstCounter(n))[1..]
  {
  }

  lemma SameAfter(p: Bytes, t: Bytes, u: Bytes)
    ensures p + t == p + u <==> t == u
  {
    assert (p + t)[|p|..] == t && (p + u)[|p|..] == u;
  }

  lemma Mirrored(m: nat, n: nat)
    ensures (PERIOD - 2 - m) % PERIOD == (PERIOD - 2 - n) % PERIOD <==> m % PERIOD == n % PERIOD
  {
  }

  lemma SameDstIff(m: nat, n: nat)
    ensures DstMac(m) == DstMac(n) <==> m % PERIOD == n % PERIOD
  {
    var c, d := DstCounter(m), DstCounter(n);
    assert DstMac(m) == DstMac(n) <==> Be32(c)[1..] == Be32(d)[1..] by {
      MacTail(m);
      MacTail(n);
      SameAfter([0x00, 0x00, 0x0c], Be32(c)[1..], Be32(d)[1..]);
    }
    assert c % PERIOD == m % PERIOD && d % PERIOD == n % PERIOD by {
      CounterResidues(m);
      CounterResidues(n);
    }
    SameTail(c, d);
  }

  lemma SameSrcIff(m: nat, n: nat)
    ensures SrcMac(m) == SrcMac(n) <==> m % PERIOD == n % PERIOD
  {
    var c, d := SrcCounter(m), SrcCounter(n);
    assert SrcMac(m) == SrcMac(n) <==> Be32(c)[1..] == Be32(d)[1..] by {
      MacTail(m);
      MacTail(n);
      SameAfter([0x00, 0x02, 0xb3], Be32(c)[1..], Be32(d)[1..]);
    }
    assert c % PERIOD == d % PERIOD <==> m % PERIOD == n % PERIOD by {
      CounterResidues(m);
      CounterResidues(n);
      Mirrored(m, n);
    }
    SameTail(c, d);
  }

  /** Two packets carry the same destination address, or the same source address, exactly
      when they are a whole number of periods apart; both counters' wraps included. */
  lemma SameAddressIff(m: nat, n: nat)
    ensures DstMac(m) == DstMac(n) <==> m % PERIOD == n % PERIOD
    ensures SrcMac(m) == SrcMac(n) <==> m % PERIOD == n % PERIOD
  {
    SameDstIff(m, n);
    SameSrcIff(m, n);
  }

  lemma Apart(n: nat, d: int)
    requires 0 < d < PERIOD
    ensures (n + d) % PERIOD != n % PERIOD
  {
  }

  /** Any 2^24 consecutive packets have pairwise distinct source and destination addresses. */
  lemma FreshWindow(m: nat, n: nat)
    requires m < n < m + PERIOD
    ensures SrcMac(m) != SrcMac(n) && DstMac(m) != DstMac(n)
  {
    Apart(m, n - m);
    SameDstIff(m, n);
    SameSrcIff(m, n);
  }

  /** The next packet after that repeats the addresses of the first. */
  lemma ExactPeriod(n: nat)
    ensures SrcMac(n + PERIOD) == SrcMac(n) && DstMac(n + PERIOD) == DstMac(n)
  {
    WholePeriods(n, 1);
    SameDstIff(n + PERIOD, n);
    SameSrcIff(n + PERIOD, n);
  }

  /** The counters stay complementary through every wrap. */
  lemma CountersSum(n: nat)
    ensures (SrcCounter(n) + DstCounter(n)) % TWO32 == TWO32 - 2
  {
    var q := (TWO32 - 2 - n) / TWO32;
    assert SrcCounter(n) + DstCounter(n) == TWO32 - 2 - TWO32 * (q + n / TWO32);
  }

  lemma CountersStep(n: nat)
    ensures SrcCounter(n + 1) == (SrcCounter(n) + TWO32 - 1) % TWO32
    ensures DstCounter(n + 1) == (DstCounter(n) + 1) % TWO32
  {
    var p, q := n / TWO32, (TWO32 - 2 - n) / TWO32;
    assert SrcCounter(n) + TWO32 - 1 == TWO32 - 2 - (n + 1) + TWO32 * (1 - q);
    WholeWraps(TWO32 - 2 - (n + 1), 1 - q);
    assert DstCounter(n) + 1 == n + 1 + TWO32 * -p;
    WholeWraps(n + 1, -p);
  }

  lemma WholeWraps(x: int, q: int)
    ensures (x + TWO32 * q) % TWO32 == x % TWO32
  {
  }

  const ETHER_HEADER: nat := 14
  const FRAME_SIZE: nat := 14 + 20 + 20 + 1400

  /** The Ethernet header of the n-th frame. */
  function Header(n: nat): (b: Bytes)
    ensures |b| == ETHER_HEADER
  {
    DstMac(n) + SrcMac(n) + [0x08, 0x00]
  }

  /** The header on the wire: fixed bytes around the low 24 bits of a counter that runs up from 0
      and one that runs down from 2^24 - 2. */
  lemma HeaderOnTheWire(n: nat)
    ensures var d, s := n % PERIOD, (PERIOD - 2 - n) % PERIOD;
            Header(n) == [0x00, 0x00, 0x0c, d / 0x1_0000, d / 0x100 % 0x100, d % 0x100,
                          0x00, 0x02, 0xb3, s / 0x1_0000, s / 0x100 % 0x100, s % 0x100, 0x08, 0x00]
  {
    MacTail(n);
    CounterResidues(n);
    TailDigits(DstCounter(n));
    TailDigits(SrcCounter(n));
  }

  lemma TailDigits(c: u32)
    ensures var d := c % PERIOD; Be32(c)[1..] == [d / 0x1_0000, d / 0x100 % 0x100, d % 0x100]
  {
    LowBytes(c);
    var b, d := Be32(c), c % PERIOD;
    assert b[1..] == [b[1], b[2], b[3]];
    Digits(b[1], b[2], b[3], d / 0x1_0000, d / 0x100 % 0x100, d % 0x100);
  }

  class Generator {
    var src: u32
    var dst: u32
    /** How many packets have been made. */
    ghost var made: nat

    ghost predicate Valid()
      reads this
    {
      src == SrcCounter(made) && dst == DstCounter(made)
    }

    constructor ()
      ensures Valid() && made == 0
    {
      src, dst, made := 0xffff_fffe, 0, 0;
    }

    /** The next frame; only its Ethernet header is determined. */
    method MakePkt() returns (frame: array<u8>)
      requires Valid()
      modifies this
      ensures Valid() && made == old(made) + 1
      ensures fresh(frame) && frame.Length == FRAME_SIZE
      ensures frame[..ETHER_HEADER] == Header(old(made))
    {
      frame := new u8[FRAME_SIZE];
      var dhost, shost := FillHosts(src, dst, made);
      CountersStep(made);
      src := (src + 0xffff_ffff) % 0x1_0000_0000;
      dst := (dst + 1) % 0x1_0000_0000;
      CopyHeader(frame, dhost, shost);
      made := made + 1;
    }

    /** Zero bytes, the counters over the last four, then the fixed bytes. */
    static method FillHosts(src: u32, dst: u32, ghost n: nat) returns (dhost: array<u8>, shost: array<u8>)
      requires src == SrcCounter(n) && dst == DstCounter(n)
      ensures fresh(dhost) && fresh(shost) && dhost.Length == shost.Length == 6
      ensures dhost[..] == DstMac(n) && shost[..] == SrcMac(n)
    {
      dhost := new u8[6](_ => 0);
      shost := new u8[6](_ => 0);
      PutCounter(shost, src);
      PutCounter(dhost, dst);
      dhost[2] := 0x0c;
      shost[0] := 0x00;
      shost[1] := 0x02;
      shost[2] := 0xb3;
    }

    static method CopyHeader(frame: array<u8>, dhost: array<u8>, shost: array<u8>)
      requires frame.Length == FRAME_SIZE && dhost.Length == shost.Length == 6
      requires frame != dhost && frame != shost
      modifies frame
      ensures frame[..ETHER_HEADER] == dhost[..] + shost[..] + [0x08, 0x00]
    {
      forall i | 0 <= i < 6 { frame[i] := dhost[i]; }
      forall i | 0 <= i < 6 { frame[6 + i] := shost[i]; }
      frame[12], frame[13] := 0x08, 0x00;
    }

    static method PutCounter(host: array<u8>, c: u32)
      requires host.Length == 6
      modifies host
      ensures host[..] == old(host[..2]) + Be32(c)
    {
      var b := Be32(c);
      host[2], host[3], host[4], host[5] := b[0], b[1], b[2], b[3];
    }
  }
}
