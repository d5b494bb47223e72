/** The first example of section 7.3 of RFC 3174, worked through the schedule and the eighty rounds. */
module Sha1Example {
  import opened Bytes
  import opened Sha1

  const ABC: Bytes := [0x61, 0x62, 0x63]

  // ---------- the schedule ----------

  lemma {:induction false} SchedulePrefix(block: Bytes, n: nat, t: nat)
    requires |block| == 64 && t <= n <= 80
    ensures Schedule(block, n)[..t] == Schedule(block, t)
    decreases n
  {
    if t < n {
      SchedulePrefix(block, n - 1, t);
      ScheduleGrows(block, n - 1);
    }
  }

  lemma ScheduleGrows(block: Bytes, n: nat)
    requires |block| == 64 && n < 80
    ensures Schedule(block, n) <= Schedule(block, n + 1)
  {
  }

  lemma NextEntry(block: Bytes, t: nat, w: seq<word>)
    requires |block| == 64 && t < 80 && t < |w| && w[..t] == Schedule(block, t) && w[..t + 1] == Schedule(block, t + 1)
    ensures w[t] == if t < 16 then Word(block[4 * t], block[4 * t + 1], block[4 * t + 2], block[4 * t + 3])
                    else NextWord(w[t - 3], w[t - 8], w[t - 14], w[t - 16])
  {
    assert w[..t + 1][t] == w[t];
  }

  /** Word t of the full schedule comes from the block, or from four earlier words. */
  lemma ScheduleAt(block: Bytes, t: nat, w: seq<word>)
    requires |block| == 64 && t < 80 && w == Schedule(block, 80)
    ensures w[t] == if t < 16 then Word(block[4 * t], block[4 * t + 1], block[4 * t + 2], block[4 * t + 3])
                    else NextWord(w[t - 3], w[t - 8], w[t - 14], w[t - 16])
  {
    SchedulePrefix(block, 80, t);
    SchedulePrefix(block, 80, t + 1);
    NextEntry(block, t, w);
  }

  lemma Words16()
    ensures NextWord(0x00000000, 0x00000000, 0x00000000, 0x61626380) == 0xC2C4C700
    ensures NextWord(0x00000000, 0x00000000, 0x00000000, 0x00000000) == 0x00000000
    ensures NextWord(0x00000018, 0x00000000, 0x00000000, 0x00000000) == 0x00000030
    ensures NextWord(0xC2C4C700, 0x00000000, 0x00000000, 0x00000000) == 0x85898E01
    ensures NextWord(0x00000000, 0x00000000, 0x00000000, 0x00000000) == 0x00000000
    ensures NextWord(0x00000030, 0x00000000, 0x00000000, 0x00000000) == 0x00000060
    ensures NextWord(0x85898E01, 0x00000000, 0x00000000, 0x00000000) == 0x0B131C03
    ensures NextWord(0x00000000, 0x00000018, 0x00000000, 0x00000000) == 0x00000030
    ensures NextWord(0x00000060, 0xC2C4C700, 0x00000000, 0x00000000) == 0x85898EC1
    ensures NextWord(0x0B131C03, 0x00000000, 0x00000000, 0x00000000) == 0x16263806
    ensures NextWord(0x00000030, 0x00000030, 0x00000000, 0x00000000) == 0x00000000
    ensures NextWord(0x85898EC1, 0x85898E01, 0x00000000, 0x00000000) == 0x00000180
    ensures NextWord(0x16263806, 0x00000000, 0x00000000, 0x00000000) == 0x2C4C700C
    ensures NextWord(0x00000000, 0x00000060, 0x00000018, 0x00000000) == 0x000000F0
    ensures NextWord(0x00000180, 0x0B131C03, 0xC2C4C700, 0x00000000) == 0x93AFB507
    ensures NextWord(0x2C4C700C, 0x00000030, 0x00000000, 0x00000018) == 0x5898E048
  {
  }

  lemma Words32()
    ensures NextWord(0x000000F0, 0x85898EC1, 0x00000030, 0xC2C4C700) == 0x8E9A9202
    ensures NextWord(0x93AFB507, 0x16263806, 0x85898E01, 0x00000000) == 0x00000600
    ensures NextWord(0x5898E048, 0x00000000, 0x00000000, 0x00000030) == 0xB131C0F0
    ensures NextWord(0x8E9A9202, 0x00000180, 0x00000060, 0x85898E01) == 0x16263BC6
    ensures NextWord(0x00000600, 0x2C4C700C, 0x0B131C03, 0x00000000) == 0x4EBED41E
    ensures NextWord(0xB131C0F0, 0x000000F0, 0x00000030, 0x00000060) == 0x626380A1
    ensures NextWord(0x16263BC6, 0x93AFB507, 0x85898EC1, 0x0B131C03) == 0x16263806
    ensures NextWord(0x4EBED41E, 0x5898E048, 0x16263806, 0x00000030) == 0x000018C0
    ensures NextWord(0x626380A1, 0x8E9A9202, 0x00000000, 0x85898EC1) == 0xD2E138C4
    ensures NextWord(0x16263806, 0x00000600, 0x00000180, 0x16263806) == 0x00000F00
    ensures NextWord(0x000018C0, 0xB131C0F0, 0x2C4C700C, 0x00000000) == 0x3AFB5079
    ensures NextWord(0xD2E138C4, 0x16263BC6, 0x000000F0, 0x00000180) == 0x898E04E5
    ensures NextWord(0x00000F00, 0x4EBED41E, 0x93AFB507, 0x2C4C700C) == 0xE2BA3C2B
    ensures NextWord(0x3AFB5079, 0x626380A1, 0x5898E048, 0x000000F0) == 0x000060C0
    ensures NextWord(0x898E04E5, 0x16263806, 0x8E9A9202, 0x93AFB507) == 0x053A37CD
    ensures NextWord(0xE2BA3C2B, 0x000018C0, 0x00000600, 0x5898E048) == 0x74458547
  {
  }

  lemma Words48()
    ensures NextWord(0x000060C0, 0xD2E138C4, 0xB131C0F0, 0x8E9A9202) == 0xDA9415ED
    ensures NextWord(0x053A37CD, 0x00000F00, 0x16263BC6, 0x00000600) == 0x26380A16
    ensures NextWord(0x74458547, 0x3AFB5079, 0x4EBED41E, 0xB131C0F0) == 0x626383A1
    ensures NextWord(0xDA9415ED, 0x898E04E5, 0x626380A1, 0x16263BC6) == 0x4EBF54DE
    ensures NextWord(0x26380A16, 0xE2BA3C2B, 0x16263806, 0x4EBED41E) == 0x3835B44B
    ensures NextWord(0x626383A1, 0x000060C0, 0x000018C0, 0x626380A1) == 0x0000F600
    ensures NextWord(0x4EBF54DE, 0x053A37CD, 0xD2E138C4, 0x16263806) == 0x1E84C7A3
    ensures NextWord(0x3835B44B, 0x74458547, 0x00000F00, 0x000018C0) == 0x98E04D98
    ensures NextWord(0x0000F600, 0xDA9415ED, 0x3AFB5079, 0xD2E138C4) == 0x651D16A0
    ensures NextWord(0x1E84C7A3, 0x26380A16, 0x898E04E5, 0x00000F00) == 0x62658CA1
    ensures NextWord(0x98E04D98, 0x626383A1, 0xE2BA3C2B, 0x3AFB5079) == 0x458544D6
    ensures NextWord(0x651D16A0, 0x4EBF54DE, 0x000060C0, 0x898E04E5) == 0x44584CB7
    ensures NextWord(0x62658CA1, 0x3835B44B, 0x053A37CD, 0xE2BA3C2B) == 0x7BA06619
    ensures NextWord(0x458544D6, 0x0000F600, 0x74458547, 0x000060C0) == 0x6380AEA2
    ensures NextWord(0x44584CB7, 0x1E84C7A3, 0xDA9415ED, 0x053A37CD) == 0x0AE55269
    ensures NextWord(0x7BA06619, 0x98E04D98, 0x26380A16, 0x74458547) == 0x627B49A1
  {
  }

  lemma Words64()
    ensures NextWord(0x6380AEA2, 0x651D16A0, 0x626383A1, 0xDA9415ED) == 0x7CD45C9D
    ensures NextWord(0x0AE55269, 0x62658CA1, 0x4EBF54DE, 0x26380A16) == 0x000F0000
    ensures NextWord(0x627B49A1, 0x458544D6, 0x3835B44B, 0x626383A1) == 0xFB50753A
    ensures NextWord(0x7CD45C9D, 0x44584CB7, 0x0000F600, 0x4EBF54DE) == 0xEC6765E8
    ensures NextWord(0x000F0000, 0x7BA06619, 0x1E84C7A3, 0x3835B44B) == 0xBA3C2BE2
    ensures NextWord(0xFB50753A, 0x6380AEA2, 0x98E04D98, 0x0000F600) == 0x0060C000
    ensures NextWord(0xEC6765E8, 0x0AE55269, 0x651D16A0, 0x1E84C7A3) == 0x3A37CD05
    ensures NextWord(0xBA3C2BE2, 0x627B49A1, 0x62658CA1, 0x98E04D98) == 0x458546F4
    ensures NextWord(0x0060C000, 0x7CD45C9D, 0x458544D6, 0x651D16A0) == 0xB8599DD6
    ensures NextWord(0x3A37CD05, 0x000F0000, 0x44584CB7, 0x62658CA1) == 0x380A1A26
    ensures NextWord(0x458546F4, 0xFB50753A, 0x7BA06619, 0x458544D6) == 0x01E02203
    ensures NextWord(0xB8599DD6, 0xEC6765E8, 0x6380AEA2, 0x44584CB7) == 0xE7CC3456
    ensures NextWord(0x380A1A26, 0xBA3C2BE2, 0x0AE55269, 0x7BA06619) == 0xE6E60B69
    ensures NextWord(0x01E02203, 0x0060C000, 0x627B49A1, 0x6380AEA2) == 0x00F60A00
    ensures NextWord(0xE7CC3456, 0x3A37CD05, 0x7CD45C9D, 0x0AE55269) == 0x5795EF4F
    ensures NextWord(0xE6E60B69, 0x458546F4, 0x000F0000, 0x627B49A1) == 0x822E0879
  {
  }

  predicate Row0(w: seq<word>) {
    |w| == 80
    && w[0] == 0x61626380 && w[1] == 0x00000000 && w[2] == 0x00000000 && w[3] == 0x00000000
    && w[4] == 0x00000000 && w[5] == 0x00000000 && w[6] == 0x00000000 && w[7] == 0x00000000
    && w[8] == 0x00000000 && w[9] == 0x00000000 && w[10] == 0x00000000 && w[11] == 0x00000000
    && w[12] == 0x00000000 && w[13] == 0x00000000 && w[14] == 0x00000000 && w[15] == 0x00000018
  }

  predicate Row16(w: seq<word>) {
    |w| == 80
    && w[16] == 0xC2C4C700 && w[17] == 0x00000000 && w[18] == 0x00000030 && w[19] == 0x85898E01
    && w[20] == 0x00000000 && w[21] == 0x00000060 && w[22] == 0x0B131C03 && w[23] == 0x00000030
    && w[24] == 0x85898EC1 && w[25] == 0x16263806 && w[26] == 0x00000000 && w[27] == 0x00000180
    && w[28] == 0x2C4C700C && w[29] == 0x000000F0 && w[30] == 0x93AFB507 && w[31] == 0x5898E048
  }

  predicate Row32(w: seq<word>) {
    |w| == 80
    && w[32] == 0x8E9A9202 && w[33] == 0x00000600 && w[34] == 0xB131C0F0 && w[35] == 0x16263BC6
    && w[36] == 0x4EBED41E && w[37] == 0x626380A1 && w[38] == 0x16263806 && w[39] == 0x000018C0
    && w[40] == 0xD2E138C4 && w[41] == 0x00000F00 && w[42] == 0x3AFB5079 && w[43] == 0x898E04E5
    && w[44] == 0xE2BA3C2B && w[45] == 0x000060C0 && w[46] == 0x053A37CD && w[47] == 0x74458547
  }

  predicate Row48(w: seq<word>) {
    |w| == 80
    && w[48] == 0xDA9415ED && w[49] == 0x26380A16 && w[50] == 0x626383A1 && w[51] == 0x4EBF54DE
    && w[52] == 0x3835B44B && w[53] == 0x0000F600 && w[54] == 0x1E84C7A3 && w[55] == 0x98E04D98
    && w[56] == 0x651D16A0 && w[57] == 0x62658CA1 && w[58] == 0x458544D6 && w[59] == 0x44584CB7
    && w[60] == 0x7BA06619 && w[61] == 0x6380AEA2 && w[62] == 0x0AE55269 && w[63] == 0x627B49A1
  }

  predicate Row64(w: seq<word>) {
    |w| == 80
    && w[64] == 0x7CD45C9D && w[65] == 0x000F0000 && w[66] == 0xFB50753A && w[67] == 0xEC6765E8
    && w[68] == 0xBA3C2BE2 && w[69] == 0x0060C000 && w[70] == 0x3A37CD05 && w[71] == 0x458546F4
    && w[72] == 0xB8599DD6 && w[73] == 0x380A1A26 && w[74] == 0x01E02203 && w[75] == 0xE7CC3456
    && w[76] == 0xE6E60B69 && w[77] == 0x00F60A00 && w[78] == 0x5795EF4F && w[79] == 0x822E0879
  }

  lemma Fill16(block: Bytes, w: seq<word>)
    requires |block| == 64 && w == Schedule(block, 80) && Row0(w)
    ensures Row16(w)
  {
    Words16();
    ScheduleAt(block, 16, w); ScheduleAt(block, 17, w); ScheduleAt(block, 18, w); ScheduleAt(block, 19, w);
    ScheduleAt(block, 20, w); ScheduleAt(block, 21, w); ScheduleAt(block, 22, w); ScheduleAt(block, 23, w);
    ScheduleAt(block, 24, w); ScheduleAt(block, 25, w); ScheduleAt(block, 26, w); ScheduleAt(block, 27, w);
    ScheduleAt(block, 28, w); ScheduleAt(block, 29, w); ScheduleAt(block, 30, w); ScheduleAt(block, 31, w);
  }

  lemma Fill32(block: Bytes, w: seq<word>)
    requires |block| == 64 && w == Schedule(block, 80) && Row16(w)
    ensures Row32(w)
  {
    Words32();
    ScheduleAt(block, 32, w); ScheduleAt(block, 33, w); ScheduleAt(block, 34, w); ScheduleAt(block, 35, w);
    ScheduleAt(block, 36, w); ScheduleAt(block, 37, w); ScheduleAt(block, 38, w); ScheduleAt(block, 39, w);
    ScheduleAt(block, 40, w); ScheduleAt(block, 41, w); ScheduleAt(block, 42, w); ScheduleAt(block, 43, w);
    ScheduleAt(block, 44, w); ScheduleAt(block, 45, w); ScheduleAt(block, 46, w); ScheduleAt(block, 47, w);
  }

  lemma Fill48(block: Bytes, w: seq<word>)
    requires |block| == 64 && w == Schedule(block, 80) && Row32(w)
    ensures Row48(w)
  {
    Words48();
    ScheduleAt(block, 48, w); ScheduleAt(block, 49, w); ScheduleAt(block, 50, w); ScheduleAt(block, 51, w);
    ScheduleAt(block, 52, w); ScheduleAt(block, 53, w); ScheduleAt(block, 54, w); ScheduleAt(block, 55, w);
    ScheduleAt(block, 56, w); ScheduleAt(block, 57, w); ScheduleAt(block, 58, w); ScheduleAt(block, 59, w);
    ScheduleAt(block, 60, w); ScheduleAt(block, 61, w); ScheduleAt(block, 62, w); ScheduleAt(block, 63, w);
  }

  lemma Fill64(block: Bytes, w: seq<word>)
    requires |block| == 64 && w == Schedule(block, 80) && Row48(w)
    ensures Row64(w)
  {
    Words64();
    ScheduleAt(block, 64, w); ScheduleAt(block, 65, w); ScheduleAt(block, 66, w); ScheduleAt(block, 67, w);
    ScheduleAt(block, 68, w); ScheduleAt(block, 69, w); ScheduleAt(block, 70, w); ScheduleAt(block, 71, w);
    ScheduleAt(block, 72, w); ScheduleAt(block, 73, w); ScheduleAt(block, 74, w); ScheduleAt(block, 75, w);
    ScheduleAt(block, 76, w); ScheduleAt(block, 77, w); ScheduleAt(block, 78, w); ScheduleAt(block, 79, w);
  }

  // ---------- the example ----------

  /** The one padded block. */
  predicate IsBlock(block: Bytes) {
    && |block| == 64
    && block[0] == 0x61 && block[1] == 0x62 && block[2] == 0x63 && block[3] == 0x80 && block[63] == 0x18
    && forall k :: 4 <= k < 63 ==> block[k] == 0
  }

  lemma BlockOf(zeros: Bytes, length: Bytes)
    requires |zeros| == 52 && forall k :: 0 <= k < 52 ==> zeros[k] == 0
    requires |length| == 8 && length[7] == 0x18 && forall k :: 0 <= k < 7 ==> length[k] == 0
    ensures IsBlock(ABC + [0x80] + zeros + length)
  {
  }

  lemma PaddedBlock(z: nat, n: byte, k: nat)
    requires z == 52 && n == 0x18 && k == 8
    ensures IsBlock(ABC + [0x80] + Zeros(z) + BigEndian(n, k))
  {
    forall j | 0 <= j < k ensures BigEndian(n, k)[j] == if j < k - 1 then 0 else n {
      SmallNumber(n, k, j);
    }
    BlockOf(Zeros(z), BigEndian(n, k));
  }

  lemma SmallNumber(n: byte, k: nat, j: nat)
    requires j < k
    ensures BigEndian(n, k)[j] == if j < k - 1 then 0 else n
  {
    BigEndianByte(n, k, j);
    SmallShift(n, k - 1 - j);
  }

  lemma {:induction false} SmallShift(n: nat, i: nat)
    requires n < 256
    ensures ShiftBytes(n, i) == if i == 0 then n else 0
  {
    if i > 0 {
      SmallShift(n / 256, i - 1);
    }
  }

  lemma FirstRow(block: Bytes, w: seq<word>)
    requires IsBlock(block) && w == Schedule(block, 80)
    ensures Row0(w)
  {
    assert Word(0x61, 0x62, 0x63, 0x80) == 0x61626380 && Word(0, 0, 0, 0) == 0 && Word(0, 0, 0, 0x18) == 0x18;
    forall t | 0 <= t < 16 ensures w[t] == if t == 0 then 0x61626380 else if t == 15 then 0x18 else 0 {
      ScheduleAt(block, t, w);
    }
  }

  // ---------- the rounds ----------

  lemma Turn(w: seq<word>, t: nat, s: State, x: word)
    requires t < |w| && Rounds(INITIAL, w[..t]) == s && w[t] == x
    ensures Rounds(INITIAL, w[..t + 1]) == Round(s, t, x)
  {
    assert w[..t + 1][..t] == w[..t];
  }

  lemma TenTurns(w: seq<word>, t: nat, s0: State, x0: word, s1: State, x1: word, s2: State, x2: word,
                 s3: State, x3: word, s4: State, x4: word, s5: State, x5: word, s6: State, x6: word,
                 s7: State, x7: word, s8: State, x8: word, s9: State, x9: word, s10: State)
    requires t + 10 <= |w| && Rounds(INITIAL, w[..t]) == s0
    requires w[t] == x0 && w[t + 1] == x1 && w[t + 2] == x2 && w[t + 3] == x3 && w[t + 4] == x4
    requires w[t + 5] == x5 && w[t + 6] == x6 && w[t + 7] == x7 && w[t + 8] == x8 && w[t + 9] == x9
    requires Round(s0, t, x0) == s1 && Round(s1, t + 1, x1) == s2 && Round(s2, t + 2, x2) == s3
    requires Round(s3, t + 3, x3) == s4 && Round(s4, t + 4, x4) == s5 && Round(s5, t + 5, x5) == s6
    requires Round(s6, t + 6, x6) == s7 && Round(s7, t + 7, x7) == s8 && Round(s8, t + 8, x8) == s9
    requires Round(s9, t + 9, x9) == s10
    ensures Rounds(INITIAL, w[..t + 10]) == s10
  {
    Turn(w, t, s0, x0);
    Turn(w, t + 1, s1, x1);
    Turn(w, t + 2, s2, x2);
    Turn(w, t + 3, s3, x3);
    Turn(w, t + 4, s4, x4);
    Turn(w, t + 5, s5, x5);
    Turn(w, t + 6, s6, x6);
    Turn(w, t + 7, s7, x7);
    Turn(w, t + 8, s8, x8);
    Turn(w, t + 9, s9, x9);
  }

  lemma Rounds0(w: seq<word>)
    requires Row0(w)
    requires Rounds(INITIAL, w[..0]) == State(0x67452301, 0xEFCDAB89, 0x98BADCFE, 0x10325476, 0xC3D2E1F0)
    ensures Rounds(INITIAL, w[..10]) == State(0x8351F929, 0x4B6AE328, 0x27A301F5, 0x664F8C30, 0x0FF1F290)
  {
    TenTurns(w, 0,
             State(0x67452301, 0xEFCDAB89, 0x98BADCFE, 0x10325476, 0xC3D2E1F0), 0x61626380,
             State(0x0116FC33, 0x67452301, 0x7BF36AE2, 0x98BADCFE, 0x10325476), 0x00000000,
             State(0x8990536D, 0x0116FC33, 0x59D148C0, 0x7BF36AE2, 0x98BADCFE), 0x00000000,
             State(0xA1390F08, 0x8990536D, 0xC045BF0C, 0x59D148C0, 0x7BF36AE2), 0x00000000,
             State(0xCDD8E11B, 0xA1390F08, 0x626414DB, 0xC045BF0C, 0x59D148C0), 0x00000000,
             State(0xCFD499DE, 0xCDD8E11B, 0x284E43C2, 0x626414DB, 0xC045BF0C), 0x00000000,
             State(0x3FC7CA40, 0xCFD499DE, 0xF3763846, 0x284E43C2, 0x626414DB), 0x00000000,
             State(0x993E30C1, 0x3FC7CA40, 0xB3F52677, 0xF3763846, 0x284E43C2), 0x00000000,
             State(0x9E8C07D4, 0x993E30C1, 0x0FF1F290, 0xB3F52677, 0xF3763846), 0x00000000,
             State(0x4B6AE328, 0x9E8C07D4, 0x664F8C30, 0x0FF1F290, 0xB3F52677), 0x00000000,
             State(0x8351F929, 0x4B6AE328, 0x27A301F5, 0x664F8C30, 0x0FF1F290));
  }

  lemma Rounds10(w: seq<word>)
    requires Row0(w) && Row16(w)
    requires Rounds(INITIAL, w[..10]) == State(0x8351F929, 0x4B6AE328, 0x27A301F5, 0x664F8C30, 0x0FF1F290)
    ensures Rounds(INITIAL, w[..20]) == State(0xFD9E1D7D, 0xDC64901D, 0x20AA99CA, 0xD3A49608, 0xC82F758B)
  {
    TenTurns(w, 10,
             State(0x8351F929, 0x4B6AE328, 0x27A301F5, 0x664F8C30, 0x0FF1F290), 0x00000000,
             State(0xFBDA9E89, 0x8351F929, 0x12DAB8CA, 0x27A301F5, 0x664F8C30), 0x00000000,
             State(0x63188FE4, 0xFBDA9E89, 0x60D47E4A, 0x12DAB8CA, 0x27A301F5), 0x00000000,
             State(0x4607B664, 0x63188FE4, 0x7EF6A7A2, 0x60D47E4A, 0x12DAB8CA), 0x00000000,
             State(0x9128F695, 0x4607B664, 0x18C623F9, 0x7EF6A7A2, 0x60D47E4A), 0x00000000,
             State(0x196BEE77, 0x9128F695, 0x1181ED99, 0x18C623F9, 0x7EF6A7A2), 0x00000018,
             State(0x20BDD62F, 0x196BEE77, 0x644A3DA5, 0x1181ED99, 0x18C623F9), 0xC2C4C700,
             State(0x4E925823, 0x20BDD62F, 0xC65AFB9D, 0x644A3DA5, 0x1181ED99), 0x00000000,
             State(0x82AA6728, 0x4E925823, 0xC82F758B, 0xC65AFB9D, 0x644A3DA5), 0x00000030,
             State(0xDC64901D, 0x82AA6728, 0xD3A49608, 0xC82F758B, 0xC65AFB9D), 0x85898E01,
             State(0xFD9E1D7D, 0xDC64901D, 0x20AA99CA, 0xD3A49608, 0xC82F758B));
  }

  lemma Rounds20(w: seq<word>)
    requires Row16(w)
    requires Rounds(INITIAL, w[..20]) == State(0xFD9E1D7D, 0xDC64901D, 0x20AA99CA, 0xD3A49608, 0xC82F758B)
    ensures Rounds(INITIAL, w[..30]) == State(0xC5FBAF5D, 0x8370B52E, 0xD2AA1365, 0x6F8D7EF5, 0x12104EE9)
  {
    TenTurns(w, 20,
             State(0xFD9E1D7D, 0xDC64901D, 0x20AA99CA, 0xD3A49608, 0xC82F758B), 0x00000000,
             State(0x1A37B0CA, 0xFD9E1D7D, 0x77192407, 0x20AA99CA, 0xD3A49608), 0x00000060,
             State(0x33A23BFC, 0x1A37B0CA, 0x7F67875F, 0x77192407, 0x20AA99CA), 0x0B131C03,
             State(0x21283486, 0x33A23BFC, 0x868DEC32, 0x7F67875F, 0x77192407), 0x00000030,
             State(0xD541F12D, 0x21283486, 0x0CE88EFF, 0x868DEC32, 0x7F67875F), 0x85898EC1,
             State(0xC7567DC6, 0xD541F12D, 0x884A0D21, 0x0CE88EFF, 0x868DEC32), 0x16263806,
             State(0x48413BA4, 0xC7567DC6, 0x75507C4B, 0x884A0D21, 0x0CE88EFF), 0x00000000,
             State(0xBE35FBD5, 0x48413BA4, 0xB1D59F71, 0x75507C4B, 0x884A0D21), 0x00000180,
             State(0x4AA84D97, 0xBE35FBD5, 0x12104EE9, 0xB1D59F71, 0x75507C4B), 0x2C4C700C,
             State(0x8370B52E, 0x4AA84D97, 0x6F8D7EF5, 0x12104EE9, 0xB1D59F71), 0x000000F0,
             State(0xC5FBAF5D, 0x8370B52E, 0xD2AA1365, 0x6F8D7EF5, 0x12104EE9));
  }

  lemma Rounds30(w: seq<word>)
    requires Row16(w) && Row32(w)
    requires Rounds(INITIAL, w[..30]) == State(0xC5FBAF5D, 0x8370B52E, 0xD2AA1365, 0x6F8D7EF5, 0x12104EE9)
    ensures Rounds(INITIAL, w[..40]) == State(0x32DE1CBA, 0x4C986405, 0xF718E5CF, 0x03D447F6, 0xF72EEC32)
  {
    TenTurns(w, 30,
             State(0xC5FBAF5D, 0x8370B52E, 0xD2AA1365, 0x6F8D7EF5, 0x12104EE9), 0x93AFB507,
             State(0x1267B407, 0xC5FBAF5D, 0xA0DC2D4B, 0xD2AA1365, 0x6F8D7EF5), 0x5898E048,
             State(0x3B845D33, 0x1267B407, 0x717EEBD7, 0xA0DC2D4B, 0xD2AA1365), 0x8E9A9202,
             State(0x046FAA0A, 0x3B845D33, 0xC499ED01, 0x717EEBD7, 0xA0DC2D4B), 0x00000600,
             State(0x2C0EBC11, 0x046FAA0A, 0xCEE1174C, 0xC499ED01, 0x717EEBD7), 0xB131C0F0,
             State(0x21796AD4, 0x2C0EBC11, 0x811BEA82, 0xCEE1174C, 0xC499ED01), 0x16263BC6,
             State(0xDCBBB0CB, 0x21796AD4, 0x4B03AF04, 0x811BEA82, 0xCEE1174C), 0x4EBED41E,
             State(0x0F511FD8, 0xDCBBB0CB, 0x085E5AB5, 0x4B03AF04, 0x811BEA82), 0x626380A1,
             State(0xDC63973F, 0x0F511FD8, 0xF72EEC32, 0x085E5AB5, 0x4B03AF04), 0x16263806,
             State(0x4C986405, 0xDC63973F, 0x03D447F6, 0xF72EEC32, 0x085E5AB5), 0x000018C0,
             State(0x32DE1CBA, 0x4C986405, 0xF718E5CF, 0x03D447F6, 0xF72EEC32));
  }

  lemma Rounds40(w: seq<word>)
    requires Row32(w) && Row48(w)
    requires Rounds(INITIAL, w[..40]) == State(0x32DE1CBA, 0x4C986405, 0xF718E5CF, 0x03D447F6, 0xF72EEC32)
    ensures Rounds(INITIAL, w[..50]) == State(0x120731C5, 0xBAF39337, 0xAFAB40B2, 0x2806E11B, 0x8714787C)
  {
    TenTurns(w, 40,
             State(0x32DE1CBA, 0x4C986405, 0xF718E5CF, 0x03D447F6, 0xF72EEC32), 0xD2E138C4,
             State(0xFC87DEDF, 0x32DE1CBA, 0x53261901, 0xF718E5CF, 0x03D447F6), 0x00000F00,
             State(0x970A0D5C, 0xFC87DEDF, 0x8CB7872E, 0x53261901, 0xF718E5CF), 0x3AFB5079,
             State(0x7F193DC5, 0x970A0D5C, 0xFF21F7B7, 0x8CB7872E, 0x53261901), 0x898E04E5,
             State(0xEE1B1AAF, 0x7F193DC5, 0x25C28357, 0xFF21F7B7, 0x8CB7872E), 0xE2BA3C2B,
             State(0x40F28E09, 0xEE1B1AAF, 0x5FC64F71, 0x25C28357, 0xFF21F7B7), 0x000060C0,
             State(0x1C51E1F2, 0x40F28E09, 0xFB86C6AB, 0x5FC64F71, 0x25C28357), 0x053A37CD,
             State(0xA01B846C, 0x1C51E1F2, 0x503CA382, 0xFB86C6AB, 0x5FC64F71), 0x74458547,
             State(0xBEAD02CA, 0xA01B846C, 0x8714787C, 0x503CA382, 0xFB86C6AB), 0xDA9415ED,
             State(0xBAF39337, 0xBEAD02CA, 0x2806E11B, 0x8714787C, 0x503CA382), 0x26380A16,
             State(0x120731C5, 0xBAF39337, 0xAFAB40B2, 0x2806E11B, 0x8714787C));
  }

  lemma Rounds50(w: seq<word>)
    requires Row48(w)
    requires Rounds(INITIAL, w[..50]) == State(0x120731C5, 0xBAF39337, 0xAFAB40B2, 0x2806E11B, 0x8714787C)
    ensures Rounds(INITIAL, w[..60]) == State(0x3F52DE5A, 0x09D785FD, 0x3498BFD4, 0xF211824F, 0xD79915AB)
  {
    TenTurns(w, 50,
             State(0x120731C5, 0xBAF39337, 0xAFAB40B2, 0x2806E11B, 0x8714787C), 0x626383A1,
             State(0x641DB2CE, 0x120731C5, 0xEEBCE4CD, 0xAFAB40B2, 0x2806E11B), 0x4EBF54DE,
             State(0x3847AD66, 0x641DB2CE, 0x4481CC71, 0xEEBCE4CD, 0xAFAB40B2), 0x3835B44B,
             State(0xE490436D, 0x3847AD66, 0x99076CB3, 0x4481CC71, 0xEEBCE4CD), 0x0000F600,
             State(0x27E9F1D8, 0xE490436D, 0x8E11EB59, 0x99076CB3, 0x4481CC71), 0x1E84C7A3,
             State(0x7B71F76D, 0x27E9F1D8, 0x792410DB, 0x8E11EB59, 0x99076CB3), 0x98E04D98,
             State(0x5E6456AF, 0x7B71F76D, 0x09FA7C76, 0x792410DB, 0x8E11EB59), 0x651D16A0,
             State(0xC846093F, 0x5E6456AF, 0x5EDC7DDB, 0x09FA7C76, 0x792410DB), 0x62658CA1,
             State(0xD262FF50, 0xC846093F, 0xD79915AB, 0x5EDC7DDB, 0x09FA7C76), 0x458544D6,
             State(0x09D785FD, 0xD262FF50, 0xF211824F, 0xD79915AB, 0x5EDC7DDB), 0x44584CB7,
             State(0x3F52DE5A, 0x09D785FD, 0x3498BFD4, 0xF211824F, 0xD79915AB));
  }

  lemma Rounds60(w: seq<word>)
    requires Row48(w) && Row64(w)
    requires Rounds(INITIAL, w[..60]) == State(0x3F52DE5A, 0x09D785FD, 0x3498BFD4, 0xF211824F, 0xD79915AB)
    ensures Rounds(INITIAL, w[..70]) == State(0x3F2588C2, 0x497093C0, 0xDE37534A, 0x030F7CAD, 0x4405957E)
  {
    TenTurns(w, 60,
             State(0x3F52DE5A, 0x09D785FD, 0x3498BFD4, 0xF211824F, 0xD79915AB), 0x7BA06619,
             State(0xD756C147, 0x3F52DE5A, 0x4275E17F, 0x3498BFD4, 0xF211824F), 0x6380AEA2,
             State(0x548C9CB2, 0xD756C147, 0x8FD4B796, 0x4275E17F, 0x3498BFD4), 0x0AE55269,
             State(0xB66C020B, 0x548C9CB2, 0xF5D5B051, 0x8FD4B796, 0x4275E17F), 0x627B49A1,
             State(0x6B61C9E1, 0xB66C020B, 0x9523272C, 0xF5D5B051, 0x8FD4B796), 0x7CD45C9D,
             State(0x19DFA7AC, 0x6B61C9E1, 0xED9B0082, 0x9523272C, 0xF5D5B051), 0x000F0000,
             State(0x101655F9, 0x19DFA7AC, 0x5AD87278, 0xED9B0082, 0x9523272C), 0xFB50753A,
             State(0x0C3DF2B4, 0x101655F9, 0x0677E9EB, 0x5AD87278, 0xED9B0082), 0xEC6765E8,
             State(0x78DD4D2B, 0x0C3DF2B4, 0x4405957E, 0x0677E9EB, 0x5AD87278), 0xBA3C2BE2,
             State(0x497093C0, 0x78DD4D2B, 0x030F7CAD, 0x4405957E, 0x0677E9EB), 0x0060C000,
             State(0x3F2588C2, 0x497093C0, 0xDE37534A, 0x030F7CAD, 0x4405957E));
  }

  lemma Rounds70(w: seq<word>)
    requires Row64(w)
    requires Rounds(INITIAL, w[..70]) == State(0x3F2588C2, 0x497093C0, 0xDE37534A, 0x030F7CAD, 0x4405957E)
    ensures Rounds(INITIAL, w[..80]) == State(0x42541B35, 0x5738D5E1, 0x21834873, 0x681E6DF6, 0xD8FDF6AD)
  {
    TenTurns(w, 70,
             State(0x3F2588C2, 0x497093C0, 0xDE37534A, 0x030F7CAD, 0x4405957E), 0x3A37CD05,
             State(0xC199F8C7, 0x3F2588C2, 0x125C24F0, 0xDE37534A, 0x030F7CAD), 0x458546F4,
             State(0x39859DE7, 0xC199F8C7, 0x8FC96230, 0x125C24F0, 0xDE37534A), 0xB8599DD6,
             State(0xEDB42DE4, 0x39859DE7, 0xF0667E31, 0x8FC96230, 0x125C24F0), 0x380A1A26,
             State(0x11793F6F, 0xEDB42DE4, 0xCE616779, 0xF0667E31, 0x8FC96230), 0x01E02203,
             State(0x5EE76897, 0x11793F6F, 0x3B6D0B79, 0xCE616779, 0xF0667E31), 0xE7CC3456,
             State(0x63F7DAB7, 0x5EE76897, 0xC45E4FDB, 0x3B6D0B79, 0xCE616779), 0xE6E60B69,
             State(0xA079B7D9, 0x63F7DAB7, 0xD7B9DA25, 0xC45E4FDB, 0x3B6D0B79), 0x00F60A00,
             State(0x860D21CC, 0xA079B7D9, 0xD8FDF6AD, 0xD7B9DA25, 0xC45E4FDB), 0x5795EF4F,
             State(0x5738D5E1, 0x860D21CC, 0x681E6DF6, 0xD8FDF6AD, 0xD7B9DA25), 0x822E0879,
             State(0x42541B35, 0x5738D5E1, 0x21834873, 0x681E6DF6, 0xD8FDF6AD));
  }

  lemma AllRounds(block: Bytes)
    requires IsBlock(block)
    ensures Rounds(INITIAL, Schedule(block, 80)) == State(0x42541B35, 0x5738D5E1, 0x21834873, 0x681E6DF6, 0xD8FDF6AD)
  {
    var w := Schedule(block, 80);
    FirstRow(block, w);
    Fill16(block, w);
    Fill32(block, w);
    Fill48(block, w);
    Fill64(block, w);
    assert w[..0] == [];
    Rounds0(w);
    Rounds10(w);
    Rounds20(w);
    Rounds30(w);
    Rounds40(w);
    Rounds50(w);
    Rounds60(w);
    Rounds70(w);
    assert w[..80] == w;
  }

  lemma Compressed(block: Bytes)
    requires IsBlock(block)
    ensures HashBlocks(block) == State(0xA9993E36, 0x4706816A, 0xBA3E2571, 0x7850C26C, 0x9CD0D89D)
  {
    AllRounds(block);
    LastBlock([], block);
    assert [] + block == block;
  }

  lemma Hashed(input: Bytes)
    requires input == ABC
    ensures |Pad(input)| % 64 == 0 && HashBlocks(Pad(input)) == State(0xA9993E36, 0x4706816A, 0xBA3E2571, 0x7850C26C, 0x9CD0D89D)
  {
    PadLength(input);
    PaddedBlock(ZeroCount(|input|), BitLength(|input|), 8);
    Compressed(Pad(input));
  }

  /** The answer the RFC gives for the message "abc". */
  lemma KnownAnswer(input: Bytes)
    requires input == [0x61, 0x62, 0x63]
    ensures Hash(input) == [0xA9, 0x99, 0x3E, 0x36, 0x47, 0x06, 0x81, 0x6A, 0xBA, 0x3E,
                            0x25, 0x71, 0x78, 0x50, 0xC2, 0x6C, 0x9C, 0xD0, 0xD8, 0x9D]
  {
    Hashed(input);
    DigestKnown();
  }

  lemma DigestKnown()
    ensures Digest(State(0xA9993E36, 0x4706816A, 0xBA3E2571, 0x7850C26C, 0x9CD0D89D)) ==
            [0xA9, 0x99, 0x3E, 0x36, 0x47, 0x06, 0x81, 0x6A, 0xBA, 0x3E,
             0x25, 0x71, 0x78, 0x50, 0xC2, 0x6C, 0x9C, 0xD0, 0xD8, 0x9D]
  {
    DigestBytes();
  }

  lemma DigestBytes()
    ensures WordBytes(0xA9993E36) == [0xA9, 0x99, 0x3E, 0x36]
    ensures WordBytes(0x4706816A) == [0x47, 0x06, 0x81, 0x6A]
    ensures WordBytes(0xBA3E2571) == [0xBA, 0x3E, 0x25, 0x71]
    ensures WordBytes(0x7850C26C) == [0x78, 0x50, 0xC2, 0x6C]
    ensures WordBytes(0x9CD0D89D) == [0x9C, 0xD0, 0xD8, 0x9D]
  {
  }
}
