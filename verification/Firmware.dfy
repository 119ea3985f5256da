/**
  SAMD_firmware_download of user/UserMain.c: an image goes out over the UART in blocks of 512 bytes,
  each with a checksum and each acknowledged, after a handshake and before a closing message.
 */
module Firmware {
  import opened Words
  import Octets

  const PKT_SIZE: nat := 512
  const MAX_IMAGE: nat := 0x8000
  const NUM_TRY: nat := 2

  /** What goes wrong: no response, no offer to update, no leave to start, a block not acknowledged. */
  const NO_RESPONSE: int := -101
  const NO_UPDATE: int := -102
  const NO_START: int := -103
  const NOT_ACKNOWLEDGED: int := -104

  type Octet = bv8

  // ----- checksums

  function XorAll(s: seq<Octet>): Octet {
    if s == [] then 0 else XorAll(s[..|s| - 1]) ^ s[|s| - 1]
  }

  /** Four bytes as one word, as the processor loads them. */
  function WordOf(a: Octet, b: Octet, c: Octet, d: Octet): bv32 {
    (a as bv32) | ((b as bv32) << 8) | ((c as bv32) << 16) | ((d as bv32) << 24)
  }

  /** The four bytes of a word, combined. */
  function Fold(w: bv32): Octet {
    ((w & 0xff) as bv8) ^ (((w >> 8) & 0xff) as bv8) ^ (((w >> 16) & 0xff) as bv8) ^ ((w >> 24) as bv8)
  }

  lemma FoldWord(a: Octet, b: Octet, c: Octet, d: Octet)
    ensures Fold(WordOf(a, b, c, d)) == a ^ b ^ c ^ d
  {
  }

  lemma FoldXor(v: bv32, w: bv32)
    ensures Fold(v ^ w) == Fold(v) ^ Fold(w)
  {
  }

  lemma {:induction false} XorAppend(s: seq<Octet>, t: seq<Octet>)
    ensures XorAll(s + t) == XorAll(s) ^ XorAll(t)
  {
    if t == [] {
      assert s + t == s;
    } else {
      XorAppend(s, t[..|t| - 1]);
      assert (s + t)[..|s + t| - 1] == s + t[..|t| - 1];
    }
  }

  // ----- what goes over the line

  function Zeros(n: nat): (s: seq<Octet>)
    ensures |s| == n && forall i :: 0 <= i < n ==> s[i] == 0
  {
    seq(n, _ => 0)
  }

  /** (len + PKT_SIZE - 1) & 0xfe00 */
  function PadLen(len: nat): nat {
    (len + PKT_SIZE - 1) / PKT_SIZE * PKT_SIZE % 0x10000
  }

  lemma PadLenFits(len: nat)
    requires len <= MAX_IMAGE
    ensures len <= PadLen(len) < len + PKT_SIZE && PadLen(len) <= MAX_IMAGE && PadLen(len) % PKT_SIZE == 0
  {
    var q := (len + PKT_SIZE - 1) / PKT_SIZE;
    assert len <= 512 * q < len + 512 && q <= 64;
    assert PadLen(len) == 512 * q;
    ModOfMultiple(512, q, 0);
  }

  /** The image, zero-padded to a multiple of 512 bytes. */
  function Padded(image: seq<Octet>): (s: seq<Octet>)
    requires |image| <= MAX_IMAGE
    ensures |s| == PadLen(|image|) && image <= s
  {
    PadLenFits(|image|);
    image + Zeros(PadLen(|image|) - |image|)
  }

  lemma {:induction false} XorZeros(n: nat)
    ensures XorAll(Zeros(n)) == 0
  {
    if n > 0 {
      XorZeros(n - 1);
      assert Zeros(n)[..n - 1] == Zeros(n - 1);
    }
  }

  /** Padding does not change the checksum of the image. */
  lemma PaddedXor(image: seq<Octet>)
    requires |image| <= MAX_IMAGE
    ensures XorAll(Padded(image)) == XorAll(image)
  {
    PadLenFits(|image|);
    XorZeros(PadLen(|image|) - |image|);
    XorAppend(image, Zeros(PadLen(|image|) - |image|));
  }

  /** A block with its checksum. */
  function Packet(block: seq<Octet>): seq<Octet> {
    block + [XorAll(block)]
  }

  /** One command, the result of Send_SAMD_CMD (0, or no response), and the reply text. */
  datatype Exchange = Exchange(cmd: seq<Octet>, ret: int, reply: string)

  /** strstr */
  predicate Contains(s: string, sub: string) {
    sub <= s || (s != [] && Contains(s[1..], sub))
  }

  ghost predicate SliceAt(s: string, sub: string, k: nat) {
    k + |sub| <= |s| && s[k..k + |sub|] == sub
  }

  /** strstr finds a text exactly when some slice is that text. */
  lemma {:induction false} ContainsIsSlice(s: string, sub: string)
    ensures Contains(s, sub) <==> exists k: nat :: SliceAt(s, sub, k)
  {
    if sub <= s {
      assert SliceAt(s, sub, 0);
    } else if s != [] {
      ContainsIsSlice(s[1..], sub);
      forall k: nat | SliceAt(s, sub, k)
        ensures k > 0 && SliceAt(s[1..], sub, k - 1)
      {
        SliceOfRest(s, sub, k);
      }
      forall k: nat | SliceAt(s[1..], sub, k)
        ensures SliceAt(s, sub, k + 1)
      {
        assert s[k + 1..k + 1 + |sub|] == s[1..][k..k + |sub|];
      }
    }
  }

  lemma SliceOfRest(s: string, sub: string, k: nat)
    requires s != [] && SliceAt(s, sub, k)
    ensures if k == 0 then sub <= s else SliceAt(s[1..], sub, k - 1)
  {
    if k > 0 {
      var slice, same := s[k..k + |sub|], s[1..][k - 1..k - 1 + |sub|];
      assert forall i :: 0 <= i < |slice| ==> slice[i] == same[i];
      assert slice == same;
    }
  }

  /** A packet was sent once or twice, and the last time it was acknowledged. */
  ghost predicate Acknowledged(es: seq<Exchange>, packet: seq<Octet>) {
    && 1 <= |es| <= 2
    && (forall i :: 0 <= i < |es| ==> es[i].cmd == packet && es[i].ret == 0)
    && Contains(es[|es| - 1].reply, "ok") && (|es| == 2 ==> !Contains(es[0].reply, "ok"))
  }

  /** The blocks of a padded image, one after the other, each acknowledged. */
  ghost predicate Transferred(es: seq<Exchange>, padded: seq<Octet>)
    decreases |padded|
  {
    if |padded| < PKT_SIZE then padded == [] && es == []
    else
      var front, block := padded[..|padded| - PKT_SIZE], padded[|padded| - PKT_SIZE..];
      exists n :: 0 <= n <= |es| && Transferred(es[..n], front) && Acknowledged(es[n..], Packet(block))
  }

  function Command(which: int): seq<Octet> {
    ['A' as Octet, 'r' as Octet, 't' as Octet, '-' as Octet, 'N' as Octet, 'e' as Octet, 't' as Octet, 0, 0, 50, 0, 0,
     if which == 0 then 7 else 8]
  }

  const YES: seq<Octet> := ['y' as Octet, 'e' as Octet, 's' as Octet]

  /** n & 0xff */
  function LowOctet(n: nat): Octet {
    (n % 256) as Octet
  }

  /** The closing message: the length of the image, and the checksum of the whole of it. */
  function DoneMessage(image: seq<Octet>): seq<Octet> {
    ['d' as Octet, 'o' as Octet, 'n' as Octet, 'e' as Octet,
     LowOctet(|image|), LowOctet(|image| / 256), XorAll(image)]
  }

  /** What the other processor can check: a packet with its checksum combines to zero. */
  lemma PacketChecks(block: seq<Octet>)
    ensures XorAll(Packet(block)) == 0 && |Packet(block)| == |block| + 1 && block <= Packet(block)
  {
    assert Packet(block)[..|block|] == block;
  }

  lemma LowOctetIs(n: nat)
    ensures LowOctet(n) as nat == n % 256
  {
    Octets.AsNumber(n % 256);
  }

  /** What the other processor learns from the closing message: the length, and a checksum that cancels the image. */
  lemma DoneMessageTells(image: seq<Octet>)
    requires |image| <= MAX_IMAGE
    ensures var m := DoneMessage(image);
      && |m| == 7 && m[..4] == [100, 111, 110, 101] && m[4] as nat + 256 * (m[5] as nat) == |image|
      && XorAll(image + [m[6]]) == 0
  {
    DoneParts(image);
    hide DoneMessage, LowOctet, XorAll;
    LowOctetIs(|image|);
    LowOctetIs(|image| / 256);
    TwoOctets(|image|);
    PacketChecks(image);
  }

  lemma DoneParts(image: seq<Octet>)
    ensures var m := DoneMessage(image);
      && |m| == 7 && m[..4] == [100, 111, 110, 101]
      && m[4] == LowOctet(|image|) && m[5] == LowOctet(|image| / 256) && m[6] == XorAll(image)
  {
    hide LowOctet, XorAll;
    assert DoneMessage(image)[..4] == [100, 111, 110, 101];
  }

  lemma TwoOctets(n: nat)
    requires n < 0x10000
    ensures n % 256 + 256 * (n / 256 % 256) == n
  {
  }

  /** The greeting names the protocol, and at its end what is to be updated. */
  lemma CommandTells(which: int)
    ensures var c := Command(which);
      && |c| == 13 && c[..7] == [65, 114, 116, 45, 78, 101, 116]
      && c[12] == (if which == 0 then 7 else 8) && Command(0)[..12] == Command(1)[..12]
  {
  }

  /** The padded image: the image, and zeros to the next multiple of 512. */
  lemma PaddedIs(image: seq<Octet>)
    requires |image| <= MAX_IMAGE
    ensures var p := Padded(image);
      && image <= p && |image| <= |p| < |image| + 512 && |p| % 512 == 0
      && forall i :: |image| <= i < |p| ==> p[i] == 0
  {
    PadLenFits(|image|);
  }

  /** A greeting that is tried again: no response, or garbage before the first start of an update. */
  ghost predicate TriedAgain(e: Exchange, which: int) {
    e.cmd == Command(which) && (e.ret != 0 || (which != 1 && !Contains(e.reply, "update")))
  }

  /** The handshake ended with an offer to update, and its acceptance. */
  ghost predicate Greeted(es: seq<Exchange>, which: int) {
    && 2 <= |es| <= 3
    && var n := |es| - 2;
       && es[n].cmd == Command(which) && es[n].ret == 0 && Contains(es[n].reply, "update")
       && es[n + 1].cmd == [121, 101, 115] && es[n + 1].ret == 0 && Contains(es[n + 1].reply, "ok")
       && (n == 1 ==> TriedAgain(es[0], which))
  }

  /** The handshake ended without leave to go on. */
  ghost predicate NotGreeted(es: seq<Exchange>, which: int, ret: int) {
    && 1 <= |es| <= 3
    && var last := es[|es| - 1];
       || (ret == -101 && last.ret == -101 && (last.cmd == Command(which) || last.cmd == [121, 101, 115]))
       || (ret == -102 && last.ret == 0 && last.cmd == Command(which) && !Contains(last.reply, "update"))
       || (ret == -103 && last.ret == 0 && last.cmd == [121, 101, 115] && !Contains(last.reply, "ok"))
  }

  /** A packet got no response, or was refused twice. */
  ghost predicate Stopped(es: seq<Exchange>, packet: seq<Octet>, ret: int) {
    && 1 <= |es| <= 2
    && (forall i :: 0 <= i < |es| ==> es[i].cmd == packet && (es[i].ret == 0 ==> !Contains(es[i].reply, "ok")))
    && (if ret == -101 then es[|es| - 1].ret == -101
        else ret == -104 && |es| == 2 && es[0].ret == 0 && es[1].ret == 0)
  }

  /** The blocks up to some place arrived, and the one there did not. */
  ghost predicate BrokenOff(es: seq<Exchange>, padded: seq<Octet>, ret: int) {
    exists n, at :: 0 <= n <= |es| && 0 <= at <= |padded| - PKT_SIZE && BrokenOffAt(es, padded, ret, n, at)
  }

  ghost predicate BrokenOffAt(es: seq<Exchange>, padded: seq<Octet>, ret: int, n: nat, at: nat)
    requires n <= |es| && at + PKT_SIZE <= |padded|
  {
    Transferred(es[..n], padded[..at]) && Stopped(es[n..], Packet(padded[at..at + PKT_SIZE]), ret)
  }

  /** A download that was given up, and why. */
  ghost predicate GivenUp(es: seq<Exchange>, image: seq<Octet>, which: int, ret: int)
    requires |image| <= MAX_IMAGE
  {
    || NotGreeted(es, which, ret)
    || exists n :: 0 <= n <= |es| && Greeted(es[..n], which) && BrokenOff(es[n..], Padded(image), ret)
  }

  /** A complete download. */
  ghost predicate Downloaded(es: seq<Exchange>, image: seq<Octet>, which: int)
    requires |image| <= MAX_IMAGE
  {
    && es != [] && es[|es| - 1].cmd == DoneMessage(image)
    && exists n :: 0 <= n < |es| && Greeted(es[..n], which) && Transferred(es[n..|es| - 1], Padded(image))
  }

  /** The line to the other processor and the buffers for what goes over it. */
  class Samd {
    /** align_buff, samd_pkt_buff and firmware_pad. */
    const align: array<Octet>
    const pkt: array<Octet>
    const pad: array<Octet>
    ghost var log: seq<Exchange>

    ghost predicate Valid()
      reads this
    {
      && align.Length >= PKT_SIZE && pkt.Length > PKT_SIZE && pad.Length >= MAX_IMAGE
      && align != pkt && align != pad && pkt != pad
    }

    constructor ()
      ensures Valid() && fresh(align) && fresh(pkt) && fresh(pad) && log == []
    {
      align := new Octet[PKT_SIZE + 16];
      pkt := new Octet[PKT_SIZE + 16];
      pad := new Octet[MAX_IMAGE];
      log := [];
    }

    /** Send_SAMD_CMD: there may be any reply, or none. */
    method Send(cmd: seq<Octet>) returns (ret: int, reply: string)
      requires cmd != []
      modifies this`log
      ensures ret == 0 || ret == NO_RESPONSE
      ensures log == old(log) + [Exchange(cmd, ret, reply)]
    {
      reply := *;
      var responded: bool := *;
      ret := if responded then 0 else NO_RESPONSE;
      log := log + [Exchange(cmd, ret, reply)];
    }

    /** The image into firmware_pad, with zeros behind it. */
    method PadImage(firmware: array<Octet>, len: nat) returns (padLen: nat)
      requires Valid() && len <= MAX_IMAGE && len <= firmware.Length && firmware != pad
      modifies pad
      ensures padLen == PadLen(len) <= MAX_IMAGE && pad[..padLen] == Padded(firmware[..len])
    {
      PadLenFits(len);
      padLen := PadLen(len);
      var i := 0;
      while i < len
        invariant 0 <= i <= len && forall j :: 0 <= j < i ==> pad[j] == firmware[j]
      {
        pad[i] := firmware[i];
        i := i + 1;
      }
      while i < padLen
        invariant len <= i <= padLen && (forall j :: 0 <= j < len ==> pad[j] == firmware[j])
        invariant forall j :: len <= j < i ==> pad[j] == 0
      {
        pad[i] := 0;
        i := i + 1;
      }
    }

    /** One block into samd_pkt_buff, by way of align_buff, with its checksum behind it. */
    method MakePacket(total: nat) returns (cksum: bv32)
      requires Valid() && total + PKT_SIZE <= pad.Length
      modifies align, pkt
      ensures pkt[..PKT_SIZE + 1] == Packet(pad[total..total + PKT_SIZE])
      ensures Fold(cksum) == XorAll(pad[total..total + PKT_SIZE])
    {
      hide Fold;
      ghost var block := pad[total..total + PKT_SIZE];
      var i := 0;
      while i < PKT_SIZE
        invariant 0 <= i <= PKT_SIZE && forall j :: 0 <= j < i ==> align[j] == block[j]
      {
        align[i] := pad[total + i];
        i := i + 1;
      }
      cksum := CopyWords(block);
      pkt[PKT_SIZE] := Fold(cksum);
      assert pkt[..PKT_SIZE + 1] == block + [Fold(cksum)];
    }

    /** The words of align_buff into samd_pkt_buff, and the combination of them. */
    method CopyWords(ghost block: seq<Octet>) returns (cksum: bv32)
      requires Valid() && align[..PKT_SIZE] == block
      modifies pkt
      ensures pkt[..PKT_SIZE] == block && Fold(cksum) == XorAll(block)
    {
      cksum := 0;
      FoldZero();
      hide Fold, WordOf, XorAll;
      var i := 0;
      assert block[..0] == [];
      while i < PKT_SIZE / 4
        invariant 0 <= i <= PKT_SIZE / 4 && forall j :: 0 <= j < 4 * i ==> pkt[j] == block[j]
        invariant Fold(cksum) == XorAll(block[..4 * i])
      {
        var k := 4 * i;
        var w := WordOf(align[k], align[k + 1], align[k + 2], align[k + 3]);
        WordStep(block, k, cksum, w);
        cksum := cksum ^ w;
        pkt[k], pkt[k + 1], pkt[k + 2], pkt[k + 3] := align[k], align[k + 1], align[k + 2], align[k + 3];
        i := i + 1;
      }
      assert block[..PKT_SIZE] == block;
    }

    /** The greeting, tried twice because the first reply may be garbage. */
    method Greet(which: int) returns (ret: int)
      modifies this`log
      ensures old(log) <= log && 1 <= |log| - |old(log)| <= 2
      ensures ret != 0 ==> NotGreeted(log[|old(log)|..], which, ret)
      ensures ret == 0 ==> var es := log[|old(log)|..];
        var last := es[|es| - 1];
        last.cmd == Command(which) && last.ret == 0 && Contains(last.reply, "update") && (|es| == 2 ==>
            TriedAgain(es[0], which))
    {
      hide Contains, Command;
      CommandIsThere(which);
      var reply;
      var i := 0;
      ret := 0;
      while i < NUM_TRY
        invariant 0 <= i <= NUM_TRY && (i == 2 ==> ret == NO_RESPONSE)
        invariant old(log) <= log && |log| == |old(log)| + i
        invariant i >= 1 ==> TriedAgain(log[|old(log)|], which)
        invariant i == 2 ==> NotGreeted(log[|old(log)|..], which, ret)
      {
        ret, reply := Send(Command(which));
        if ret == 0 {
          if Contains(reply, "update") {
            return;
          }
          if which == 1 || i == 1 {
            return NO_UPDATE;
          }
        }
        i := i + 1;
      }
    }

    /** The greeting, and the consent. */
    method Handshake(which: int) returns (ret: int)
      modifies this`log
      ensures old(log) <= log
      ensures if ret == 0 then Greeted(log[|old(log)|..], which) else NotGreeted(log[|old(log)|..], which, ret)
    {
      hide Contains, Command, TriedAgain;
      ret := Greet(which);
      if ret != 0 {
        return;
      }
      ghost var greeted := log;
      var reply;
      ret, reply := Send(YES);
      if ret != 0 {
        return;
      }
      if !Contains(reply, "ok") {
        return NO_START;
      }
      GreetingDone(greeted[|old(log)|..], Exchange(YES, ret, reply), which);
      assert log[|old(log)|..] == greeted[|old(log)|..] + [Exchange(YES, ret, reply)];
    }

    /** One packet, sent again once if it is not acknowledged. */
    method SendPacket(packet: seq<Octet>) returns (ret: int)
      requires packet != []
      modifies this`log
      ensures old(log) <= log
      ensures if ret == 0 then Acknowledged(log[|old(log)|..], packet) else Stopped(log[|old(log)|..], packet, ret)
    {
      hide Contains;
      var reply;
      var try := 0;
      while try < 2
        invariant 0 <= try <= 1 && old(log) <= log && |log| == |old(log)| + try
        invariant try == 1 ==> var e := log[|old(log)|]; e.cmd == packet && e.ret == 0 && !Contains(e.reply, "ok")
        decreases 2 - try
      {
        ret, reply := Send(packet);
        if ret != 0 {
          return;
        }
        if !Contains(reply, "ok") {
          if try == 0 {
            try := try + 1;
            continue;
          }
          return NOT_ACKNOWLEDGED;
        }
        break;
      }
    }

    /** All blocks of the padded image; cksum is the combination of all words sent. */
    method SendBlocks(padLen: nat) returns (ret: int, cksum: bv32)
      requires Valid() && padLen <= MAX_IMAGE && padLen % PKT_SIZE == 0
      modifies this`log, align, pkt
      ensures old(log) <= log
      ensures pad[..padLen] == old(pad[..padLen])
      ensures if ret == 0 then Transferred(log[|old(log)|..], pad[..padLen]) && Fold(cksum) == XorAll(pad[..padLen])
        else BrokenOff(log[|old(log)|..], pad[..padLen], ret)
    {
      hide Transferred, Acknowledged, Fold, XorAll, Packet, Stopped, BrokenOff;
      ret, cksum := 0, 0;
      var total: nat, remain: nat := 0, padLen;
      ghost var image, start := pad[..padLen], |log|;
      FoldNothing();
      TransferStart();
      assert log[start..] == [] && image[..0] == [];
      while remain != 0
        invariant total + remain == padLen && remain % PKT_SIZE == 0 && pad[..padLen] == image && old(log) <= log
        invariant Transferred(log[start..], image[..total]) && Fold(cksum) == XorAll(image[..total]) && ret == 0
      {
        ghost var sofar := log;
        assert pad[total..total + PKT_SIZE] == image[total..total + PKT_SIZE];
        var c := MakePacket(total);
        ghost var block := image[total..total + PKT_SIZE];
        BlockDone(image, total, cksum, c);
        total := total + PKT_SIZE;
        remain := remain - PKT_SIZE;
        cksum := cksum ^ c;
        ret := SendPacket(pkt[..PKT_SIZE + 1]);
        assert log[start..] == sofar[start..] + log[|sofar|..];
        if ret != 0 {
          BreakOff(sofar[start..], log[|sofar|..], image, total - PKT_SIZE, ret);
          return;
        }
        TransferOn(sofar[start..], log[|sofar|..], image[..total - PKT_SIZE], block);
        assert image[..total - PKT_SIZE] + block == image[..total];
      }
      assert image[..total] == image;
    }

    /** The closing message; its reply does not matter. */
    method SendDone(len: nat, cksum: Octet, ghost image: seq<Octet>)
      requires len == |image| <= MAX_IMAGE && cksum == XorAll(image)
      modifies this`log
      ensures old(log) <= log && |log| == |old(log)| + 1 && log[|old(log)|].cmd == DoneMessage(image)
    {
      hide XorAll, LowOctet;
      var done := ['d' as Octet, 'o' as Octet, 'n' as Octet, 'e' as Octet];
      var message := done + [LowOctet(len), LowOctet(len / 256), cksum];
      assert message == DoneMessage(image);
      hide DoneMessage;
      var ret, reply := Send(message);
    }

    /** SAMD_firmware_download: 0 only when the whole image has arrived. */
    method Download(firmware: array<Octet>, len: nat, which: int) returns (ret: int)
      requires Valid() && len <= MAX_IMAGE && len <= firmware.Length
      requires firmware != pad && firmware != align && firmware != pkt
      modifies this`log, align, pkt, pad
      ensures old(log) <= log && firmware[..len] == old(firmware[..len])
      ensures if ret == 0 then Downloaded(log[|old(log)|..], firmware[..len], which)
        else GivenUp(log[|old(log)|..], firmware[..len], which, ret)
    {
      hide Transferred, Greeted, NotGreeted, BrokenOff, Fold, XorAll, Padded, Downloaded, DoneMessage;
      ghost var start := |log|;
      ghost var image := firmware[..len];
      var padLen := PadImage(firmware, len);
      PadLenFits(len);
      ret := Handshake(which);
      if ret != 0 {
        return;
      }
      ghost var greeted := log;
      var cksum;
      ret, cksum := SendBlocks(padLen);
      if ret != 0 {
        GiveUp(greeted[start..], log[|greeted|..], image, which, ret);
        assert log[start..] == greeted[start..] + log[|greeted|..];
        return;
      }
      PaddedXor(image);
      ghost var sent := log;
      SendDone(len, Fold(cksum), image);
      DownloadDone(greeted[start..], sent[|greeted|..], log[|sent|], image, which);
      assert log[start..] == greeted[start..] + sent[|greeted|..] + [log[|sent|]];
    }
  }

  lemma BreakOff(es: seq<Exchange>, es2: seq<Exchange>, padded: seq<Octet>, at: nat, ret: int)
    requires at + PKT_SIZE <= |padded| && Transferred(es, padded[..at])
    requires Stopped(es2, Packet(padded[at..at + PKT_SIZE]), ret)
    ensures BrokenOff(es + es2, padded, ret)
  {
    hide Transferred, Stopped, Packet;
    var all := es + es2;
    assert all[..|es|] == es && all[|es|..] == es2;
    assert BrokenOffAt(all, padded, ret, |es|, at);
  }

  lemma GiveUp(es: seq<Exchange>, es2: seq<Exchange>, image: seq<Octet>, which: int, ret: int)
    requires |image| <= MAX_IMAGE && Greeted(es, which) && BrokenOff(es2, Padded(image), ret)
    ensures GivenUp(es + es2, image, which, ret)
  {
    hide Greeted, BrokenOff, NotGreeted;
    var all := es + es2;
    assert all[..|es|] == es && all[|es|..] == es2;
  }

  lemma GreetingDone(es: seq<Exchange>, yes: Exchange, which: int)
    requires 1 <= |es| <= 2 && yes.cmd == YES && yes.ret == 0 && Contains(yes.reply, "ok")
    requires var last := es[|es| - 1];
      last.cmd == Command(which) && last.ret == 0 && Contains(last.reply, "update") && (|es| == 2 ==>
          TriedAgain(es[0], which))
    ensures Greeted(es + [yes], which)
  {
    hide Contains, Command, TriedAgain;
  }

  lemma DownloadDone(es: seq<Exchange>, es2: seq<Exchange>, done: Exchange, image: seq<Octet>, which: int)
    requires |image| <= MAX_IMAGE && Greeted(es, which) && Transferred(es2, Padded(image))
    requires done.cmd == DoneMessage(image)
    ensures Downloaded(es + es2 + [done], image, which)
  {
    hide Greeted, Transferred, DoneMessage;
    var all := es + es2 + [done];
    assert all[..|es|] == es && all[|es|..|all| - 1] == es2;
  }

  lemma CommandIsThere(which: int)
    ensures Command(which) != []
  {
  }

  lemma FoldNothing()
    ensures Fold(0) == XorAll([])
  {
  }

  lemma TransferStart()
    ensures Transferred([], [])
  {
  }

  lemma TransferOn(es: seq<Exchange>, es2: seq<Exchange>, front: seq<Octet>, block: seq<Octet>)
    requires Transferred(es, front) && Acknowledged(es2, Packet(block)) && |block| == PKT_SIZE
    ensures Transferred(es + es2, front + block)
  {
    hide Acknowledged;
    var all, padded := es + es2, front + block;
    assert padded[..|padded| - PKT_SIZE] == front && padded[|padded| - PKT_SIZE..] == block;
    assert all[..|es|] == es && all[|es|..] == es2;
  }

  lemma BlockDone(image: seq<Octet>, total: nat, cksum: bv32, c: bv32)
    requires total + PKT_SIZE <= |image| && Fold(cksum) == XorAll(image[..total])
    requires Fold(c) == XorAll(image[total..total + PKT_SIZE])
    ensures Fold(cksum ^ c) == XorAll(image[..total + PKT_SIZE])
  {
    hide Fold, XorAll;
    FoldXor(cksum, c);
    XorAppend(image[..total], image[total..total + PKT_SIZE]);
    assert image[..total] + image[total..total + PKT_SIZE] == image[..total + PKT_SIZE];
  }

  lemma FoldZero()
    ensures Fold(0) == 0 && XorAll([]) == 0
  {
  }

  lemma WordStep(block: seq<Octet>, k: nat, c: bv32, w: bv32)
    requires k + 4 <= |block| && Fold(c) == XorAll(block[..k])
    requires w == WordOf(block[k], block[k + 1], block[k + 2], block[k + 3])
    ensures Fold(c ^ w) == XorAll(block[..k + 4])
  {
    FoldWord(block[k], block[k + 1], block[k + 2], block[k + 3]);
    FoldXor(c, w);
    XorFour(block, k);
  }

  lemma XorFour(block: seq<Octet>, k: nat)
    requires k + 4 <= |block|
    ensures XorAll(block[..k + 4]) == XorAll(block[..k]) ^ (block[k] ^ block[k + 1] ^ block[k + 2] ^ block[k + 3])
  {
    XorOne(block, k);
    XorOne(block, k + 1);
    XorOne(block, k + 2);
    XorOne(block, k + 3);
  }

  lemma XorOne(block: seq<Octet>, k: nat)
    requires k < |block|
    ensures XorAll(block[..k + 1]) == XorAll(block[..k]) ^ block[k]
  {
    assert block[..k + 1][..k] == block[..k];
  }
}
