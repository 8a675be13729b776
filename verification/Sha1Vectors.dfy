/**
 What section 5 of RFC 3174 takes its constants from, and the first test vector of its section 7.3, the
 message "abc", by way of the words of its schedule and the registers after its rounds.
 */
module Sha1Vectors {
  import opened Sha1Spec

  /** K(t) is the integer part of 2^30 times the square root of 2, 3, 5 and 10 in turn. */
  lemma RoundConstants(t: nat)
    requires t < 80
    ensures var n, k := [2, 3, 5, 10][t / 20], K(t) as int;
            k * k <= n * 0x1000_0000_0000_0000 < (k + 1) * (k + 1)
  {
  }

  // ----- "abc" -----

  /** The words of its only block. */
  const ABC: seq<Word> := [0x61626380, 0x00000000, 0x00000000, 0x00000000, 0x00000000, 0x00000000,
                           0x00000000, 0x00000000, 0x00000000, 0x00000000, 0x00000000,
                           0x00000000, 0x00000000, 0x00000000, 0x00000000, 0x00000018]

  /** The words of its schedule, eight in a row. */
  function W(t: nat): Word
    requires t < 80
  {
    var row :=
      match t / 8
      case 0 => [0x61626380, 0x00000000, 0x00000000, 0x00000000, 0x00000000, 0x00000000, 0x00000000, 0x00000000]
      case 1 => [0x00000000, 0x00000000, 0x00000000, 0x00000000, 0x00000000, 0x00000000, 0x00000000, 0x00000018]
      case 2 => [0xC2C4C700, 0x00000000, 0x00000030, 0x85898E01, 0x00000000, 0x00000060, 0x0B131C03, 0x00000030]
      case 3 => [0x85898EC1, 0x16263806, 0x00000000, 0x00000180, 0x2C4C700C, 0x000000F0, 0x93AFB507, 0x5898E048]
      case 4 => [0x8E9A9202, 0x00000600, 0xB131C0F0, 0x16263BC6, 0x4EBED41E, 0x626380A1, 0x16263806, 0x000018C0]
      case 5 => [0xD2E138C4, 0x00000F00, 0x3AFB5079, 0x898E04E5, 0xE2BA3C2B, 0x000060C0, 0x053A37CD, 0x74458547]
      case 6 => [0xDA9415ED, 0x26380A16, 0x626383A1, 0x4EBF54DE, 0x3835B44B, 0x0000F600, 0x1E84C7A3, 0x98E04D98]
      case 7 => [0x651D16A0, 0x62658CA1, 0x458544D6, 0x44584CB7, 0x7BA06619, 0x6380AEA2, 0x0AE55269, 0x627B49A1]
      case 8 => [0x7CD45C9D, 0x000F0000, 0xFB50753A, 0xEC6765E8, 0xBA3C2BE2, 0x0060C000, 0x3A37CD05, 0x458546F4]
      case _ => [0xB8599DD6, 0x380A1A26, 0x01E02203, 0xE7CC3456, 0xE6E60B69, 0x00F60A00, 0x5795EF4F, 0x822E0879];
    row[t % 8]
  }

  ghost predicate Feeds(t: nat)
    requires 16 <= t < 80
  {
    W(t) == Feed(W(t - 3), W(t - 8), W(t - 14), W(t - 16))
  }

  lemma Fed(t: nat, p: Word, q: Word, r: Word, s: Word)
    requires 16 <= t < 80 && W(t - 3) == p && W(t - 8) == q && W(t - 14) == r && W(t - 16) == s
    requires W(t) == Feed(p, q, r, s)
    ensures Feeds(t)
  {
  }

  lemma FeedsTo24(t: nat)
    requires 16 <= t < 24
    ensures Feeds(t)
  {
    hide Feeds;
    Fed(16, 0x00000000, 0x00000000, 0x00000000, 0x61626380);
    Fed(17, 0x00000000, 0x00000000, 0x00000000, 0x00000000);
    Fed(18, 0x00000018, 0x00000000, 0x00000000, 0x00000000);
    Fed(19, 0xC2C4C700, 0x00000000, 0x00000000, 0x00000000);
    Fed(20, 0x00000000, 0x00000000, 0x00000000, 0x00000000);
    Fed(21, 0x00000030, 0x00000000, 0x00000000, 0x00000000);
    Fed(22, 0x85898E01, 0x00000000, 0x00000000, 0x00000000);
    Fed(23, 0x00000000, 0x00000018, 0x00000000, 0x00000000);
  }

  lemma FeedsTo32(t: nat)
    requires 24 <= t < 32
    ensures Feeds(t)
  {
    hide Feeds;
    Fed(24, 0x00000060, 0xC2C4C700, 0x00000000, 0x00000000);
    Fed(25, 0x0B131C03, 0x00000000, 0x00000000, 0x00000000);
    Fed(26, 0x00000030, 0x00000030, 0x00000000, 0x00000000);
    Fed(27, 0x85898EC1, 0x85898E01, 0x00000000, 0x00000000);
    Fed(28, 0x16263806, 0x00000000, 0x00000000, 0x00000000);
    Fed(29, 0x00000000, 0x00000060, 0x00000018, 0x00000000);
    Fed(30, 0x00000180, 0x0B131C03, 0xC2C4C700, 0x00000000);
    Fed(31, 0x2C4C700C, 0x00000030, 0x00000000, 0x00000018);
  }

  lemma FeedsTo40(t: nat)
    requires 32 <= t < 40
    ensures Feeds(t)
  {
    hide Feeds;
    Fed(32, 0x000000F0, 0x85898EC1, 0x00000030, 0xC2C4C700);
    Fed(33, 0x93AFB507, 0x16263806, 0x85898E01, 0x00000000);
    Fed(34, 0x5898E048, 0x00000000, 0x00000000, 0x00000030);
    Fed(35, 0x8E9A9202, 0x00000180, 0x00000060, 0x85898E01);
    Fed(36, 0x00000600, 0x2C4C700C, 0x0B131C03, 0x00000000);
    Fed(37, 0xB131C0F0, 0x000000F0, 0x00000030, 0x00000060);
    Fed(38, 0x16263BC6, 0x93AFB507, 0x85898EC1, 0x0B131C03);
    Fed(39, 0x4EBED41E, 0x5898E048, 0x16263806, 0x00000030);
  }

  lemma FeedsTo48(t: nat)
    requires 40 <= t < 48
    ensures Feeds(t)
  {
    hide Feeds;
    Fed(40, 0x626380A1, 0x8E9A9202, 0x00000000, 0x85898EC1);
    Fed(41, 0x16263806, 0x00000600, 0x00000180, 0x16263806);
    Fed(42, 0x000018C0, 0xB131C0F0, 0x2C4C700C, 0x00000000);
    Fed(43, 0xD2E138C4, 0x16263BC6, 0x000000F0, 0x00000180);
    Fed(44, 0x00000F00, 0x4EBED41E, 0x93AFB507, 0x2C4C700C);
    Fed(45, 0x3AFB5079, 0x626380A1, 0x5898E048, 0x000000F0);
    Fed(46, 0x898E04E5, 0x16263806, 0x8E9A9202, 0x93AFB507);
    Fed(47, 0xE2BA3C2B, 0x000018C0, 0x00000600, 0x5898E048);
  }

  lemma FeedsTo56(t: nat)
    requires 48 <= t < 56
    ensures Feeds(t)
  {
    hide Feeds;
    Fed(48, 0x000060C0, 0xD2E138C4, 0xB131C0F0, 0x8E9A9202);
    Fed(49, 0x053A37CD, 0x00000F00, 0x16263BC6, 0x00000600);
    Fed(50, 0x74458547, 0x3AFB5079, 0x4EBED41E, 0xB131C0F0);
    Fed(51, 0xDA9415ED, 0x898E04E5, 0x626380A1, 0x16263BC6);
    Fed(52, 0x26380A16, 0xE2BA3C2B, 0x16263806, 0x4EBED41E);
    Fed(53, 0x626383A1, 0x000060C0, 0x000018C0, 0x626380A1);
    Fed(54, 0x4EBF54DE, 0x053A37CD, 0xD2E138C4, 0x16263806);
    Fed(55, 0x3835B44B, 0x74458547, 0x00000F00, 0x000018C0);
  }

  lemma FeedsTo64(t: nat)
    requires 56 <= t < 64
    ensures Feeds(t)
  {
    hide Feeds;
    Fed(56, 0x0000F600, 0xDA9415ED, 0x3AFB5079, 0xD2E138C4);
    Fed(57, 0x1E84C7A3, 0x26380A16, 0x898E04E5, 0x00000F00);
    Fed(58, 0x98E04D98, 0x626383A1, 0xE2BA3C2B, 0x3AFB5079);
    Fed(59, 0x651D16A0, 0x4EBF54DE, 0x000060C0, 0x898E04E5);
    Fed(60, 0x62658CA1, 0x3835B44B, 0x053A37CD, 0xE2BA3C2B);
    Fed(61, 0x458544D6, 0x0000F600, 0x74458547, 0x000060C0);
    Fed(62, 0x44584CB7, 0x1E84C7A3, 0xDA9415ED, 0x053A37CD);
    Fed(63, 0x7BA06619, 0x98E04D98, 0x26380A16, 0x74458547);
  }

  lemma FeedsTo72(t: nat)
    requires 64 <= t < 72
    ensures Feeds(t)
  {
    hide Feeds;
    Fed(64, 0x6380AEA2, 0x651D16A0, 0x626383A1, 0xDA9415ED);
    Fed(65, 0x0AE55269, 0x62658CA1, 0x4EBF54DE, 0x26380A16);
    Fed(66, 0x627B49A1, 0x458544D6, 0x3835B44B, 0x626383A1);
    Fed(67, 0x7CD45C9D, 0x44584CB7, 0x0000F600, 0x4EBF54DE);
    Fed(68, 0x000F0000, 0x7BA06619, 0x1E84C7A3, 0x3835B44B);
    Fed(69, 0xFB50753A, 0x6380AEA2, 0x98E04D98, 0x0000F600);
    Fed(70, 0xEC6765E8, 0x0AE55269, 0x651D16A0, 0x1E84C7A3);
    Fed(71, 0xBA3C2BE2, 0x627B49A1, 0x62658CA1, 0x98E04D98);
  }

  lemma FeedsTo80(t: nat)
    requires 72 <= t < 80
    ensures Feeds(t)
  {
    hide Feeds;
    Fed(72, 0x0060C000, 0x7CD45C9D, 0x458544D6, 0x651D16A0);
    Fed(73, 0x3A37CD05, 0x000F0000, 0x44584CB7, 0x62658CA1);
    Fed(74, 0x458546F4, 0xFB50753A, 0x7BA06619, 0x458544D6);
    Fed(75, 0xB8599DD6, 0xEC6765E8, 0x6380AEA2, 0x44584CB7);
    Fed(76, 0x380A1A26, 0xBA3C2BE2, 0x0AE55269, 0x7BA06619);
    Fed(77, 0x01E02203, 0x0060C000, 0x627B49A1, 0x6380AEA2);
    Fed(78, 0xE7CC3456, 0x3A37CD05, 0x7CD45C9D, 0x0AE55269);
    Fed(79, 0xE6E60B69, 0x458546F4, 0x000F0000, 0x627B49A1);
  }

  lemma AllFeed(t: nat)
    requires 16 <= t < 80
    ensures Feeds(t)
  {
    hide Feeds;
    if t < 24 {
      FeedsTo24(t);
    } else if t < 32 {
      FeedsTo32(t);
    } else if t < 40 {
      FeedsTo40(t);
    } else if t < 48 {
      FeedsTo48(t);
    } else if t < 56 {
      FeedsTo56(t);
    } else if t < 64 {
      FeedsTo64(t);
    } else if t < 72 {
      FeedsTo72(t);
    } else if t < 80 {
      FeedsTo80(t);
    }
  }

  lemma {:induction false} ScheduleIs(t: nat)
    requires t < 80
    ensures Schedule(ABC, t) == W(t)
  {
    if t >= 16 {
      AllFeed(t);
      hide W, Feed;
      ScheduleIs(t - 3);
      ScheduleIs(t - 8);
      ScheduleIs(t - 14);
      ScheduleIs(t - 16);
    }
  }

  lemma Turn(t: nat, r: Regs, temp: Word, rotated: Word)
    requires t < 80 && Rounds(ABC, INITIAL, t) == r
    requires temp == Temp(Rol(r.a, 5), F(t, r.b, r.c, r.d), r.e, W(t), K(t)) && rotated == Rol(r.b, 30)
    ensures Rounds(ABC, INITIAL, t + 1) == Regs(temp, r.a, rotated, r.c, r.d)
  {
    ScheduleIs(t);
    hide Schedule, W, F, K, Rol, Temp;
  }

  lemma RoundsTo0()
    ensures Rounds(ABC, INITIAL, 0) == Regs(0x67452301, 0xEFCDAB89, 0x98BADCFE, 0x10325476, 0xC3D2E1F0)
  {
  }

  lemma RoundsTo8()
    ensures Rounds(ABC, INITIAL, 8) == Regs(0x9E8C07D4, 0x993E30C1, 0x0FF1F290, 0xB3F52677, 0xF3763846)
  {
    hide Rounds;
    RoundsTo0();
    Turn(0, Regs(0x67452301, 0xEFCDAB89, 0x98BADCFE, 0x10325476, 0xC3D2E1F0), 0x0116FC33, 0x7BF36AE2);
    Turn(1, Regs(0x0116FC33, 0x67452301, 0x7BF36AE2, 0x98BADCFE, 0x10325476), 0x8990536D, 0x59D148C0);
    Turn(2, Regs(0x8990536D, 0x0116FC33, 0x59D148C0, 0x7BF36AE2, 0x98BADCFE), 0xA1390F08, 0xC045BF0C);
    Turn(3, Regs(0xA1390F08, 0x8990536D, 0xC045BF0C, 0x59D148C0, 0x7BF36AE2), 0xCDD8E11B, 0x626414DB);
    Turn(4, Regs(0xCDD8E11B, 0xA1390F08, 0x626414DB, 0xC045BF0C, 0x59D148C0), 0xCFD499DE, 0x284E43C2);
    Turn(5, Regs(0xCFD499DE, 0xCDD8E11B, 0x284E43C2, 0x626414DB, 0xC045BF0C), 0x3FC7CA40, 0xF3763846);
    Turn(6, Regs(0x3FC7CA40, 0xCFD499DE, 0xF3763846, 0x284E43C2, 0x626414DB), 0x993E30C1, 0xB3F52677);
    Turn(7, Regs(0x993E30C1, 0x3FC7CA40, 0xB3F52677, 0xF3763846, 0x284E43C2), 0x9E8C07D4, 0x0FF1F290);
  }

  lemma RoundsTo16()
    ensures Rounds(ABC, INITIAL, 16) == Regs(0x20BDD62F, 0x196BEE77, 0x644A3DA5, 0x1181ED99, 0x18C623F9)
  {
    hide Rounds;
    RoundsTo8();
    Turn(8, Regs(0x9E8C07D4, 0x993E30C1, 0x0FF1F290, 0xB3F52677, 0xF3763846), 0x4B6AE328, 0x664F8C30);
    Turn(9, Regs(0x4B6AE328, 0x9E8C07D4, 0x664F8C30, 0x0FF1F290, 0xB3F52677), 0x8351F929, 0x27A301F5);
    Turn(10, Regs(0x8351F929, 0x4B6AE328, 0x27A301F5, 0x664F8C30, 0x0FF1F290), 0xFBDA9E89, 0x12DAB8CA);
    Turn(11, Regs(0xFBDA9E89, 0x8351F929, 0x12DAB8CA, 0x27A301F5, 0x664F8C30), 0x63188FE4, 0x60D47E4A);
    Turn(12, Regs(0x63188FE4, 0xFBDA9E89, 0x60D47E4A, 0x12DAB8CA, 0x27A301F5), 0x4607B664, 0x7EF6A7A2);
    Turn(13, Regs(0x4607B664, 0x63188FE4, 0x7EF6A7A2, 0x60D47E4A, 0x12DAB8CA), 0x9128F695, 0x18C623F9);
    Turn(14, Regs(0x9128F695, 0x4607B664, 0x18C623F9, 0x7EF6A7A2, 0x60D47E4A), 0x196BEE77, 0x1181ED99);
    Turn(15, Regs(0x196BEE77, 0x9128F695, 0x1181ED99, 0x18C623F9, 0x7EF6A7A2), 0x20BDD62F, 0x644A3DA5);
  }

  lemma RoundsTo24()
    ensures Rounds(ABC, INITIAL, 24) == Regs(0xD541F12D, 0x21283486, 0x0CE88EFF, 0x868DEC32, 0x7F67875F)
  {
    hide Rounds;
    RoundsTo16();
    Turn(16, Regs(0x20BDD62F, 0x196BEE77, 0x644A3DA5, 0x1181ED99, 0x18C623F9), 0x4E925823, 0xC65AFB9D);
    Turn(17, Regs(0x4E925823, 0x20BDD62F, 0xC65AFB9D, 0x644A3DA5, 0x1181ED99), 0x82AA6728, 0xC82F758B);
    Turn(18, Regs(0x82AA6728, 0x4E925823, 0xC82F758B, 0xC65AFB9D, 0x644A3DA5), 0xDC64901D, 0xD3A49608);
    Turn(19, Regs(0xDC64901D, 0x82AA6728, 0xD3A49608, 0xC82F758B, 0xC65AFB9D), 0xFD9E1D7D, 0x20AA99CA);
    Turn(20, Regs(0xFD9E1D7D, 0xDC64901D, 0x20AA99CA, 0xD3A49608, 0xC82F758B), 0x1A37B0CA, 0x77192407);
    Turn(21, Regs(0x1A37B0CA, 0xFD9E1D7D, 0x77192407, 0x20AA99CA, 0xD3A49608), 0x33A23BFC, 0x7F67875F);
    Turn(22, Regs(0x33A23BFC, 0x1A37B0CA, 0x7F67875F, 0x77192407, 0x20AA99CA), 0x21283486, 0x868DEC32);
    Turn(23, Regs(0x21283486, 0x33A23BFC, 0x868DEC32, 0x7F67875F, 0x77192407), 0xD541F12D, 0x0CE88EFF);
  }

  lemma RoundsTo32()
    ensures Rounds(ABC, INITIAL, 32) == Regs(0x3B845D33, 0x1267B407, 0x717EEBD7, 0xA0DC2D4B, 0xD2AA1365)
  {
    hide Rounds;
    RoundsTo24();
    Turn(24, Regs(0xD541F12D, 0x21283486, 0x0CE88EFF, 0x868DEC32, 0x7F67875F), 0xC7567DC6, 0x884A0D21);
    Turn(25, Regs(0xC7567DC6, 0xD541F12D, 0x884A0D21, 0x0CE88EFF, 0x868DEC32), 0x48413BA4, 0x75507C4B);
    Turn(26, Regs(0x48413BA4, 0xC7567DC6, 0x75507C4B, 0x884A0D21, 0x0CE88EFF), 0xBE35FBD5, 0xB1D59F71);
    Turn(27, Regs(0xBE35FBD5, 0x48413BA4, 0xB1D59F71, 0x75507C4B, 0x884A0D21), 0x4AA84D97, 0x12104EE9);
    Turn(28, Regs(0x4AA84D97, 0xBE35FBD5, 0x12104EE9, 0xB1D59F71, 0x75507C4B), 0x8370B52E, 0x6F8D7EF5);
    Turn(29, Regs(0x8370B52E, 0x4AA84D97, 0x6F8D7EF5, 0x12104EE9, 0xB1D59F71), 0xC5FBAF5D, 0xD2AA1365);
    Turn(30, Regs(0xC5FBAF5D, 0x8370B52E, 0xD2AA1365, 0x6F8D7EF5, 0x12104EE9), 0x1267B407, 0xA0DC2D4B);
    Turn(31, Regs(0x1267B407, 0xC5FBAF5D, 0xA0DC2D4B, 0xD2AA1365, 0x6F8D7EF5), 0x3B845D33, 0x717EEBD7);
  }

  lemma RoundsTo40()
    ensures Rounds(ABC, INITIAL, 40) == Regs(0x32DE1CBA, 0x4C986405, 0xF718E5CF, 0x03D447F6, 0xF72EEC32)
  {
    hide Rounds;
    RoundsTo32();
    Turn(32, Regs(0x3B845D33, 0x1267B407, 0x717EEBD7, 0xA0DC2D4B, 0xD2AA1365), 0x046FAA0A, 0xC499ED01);
    Turn(33, Regs(0x046FAA0A, 0x3B845D33, 0xC499ED01, 0x717EEBD7, 0xA0DC2D4B), 0x2C0EBC11, 0xCEE1174C);
    Turn(34, Regs(0x2C0EBC11, 0x046FAA0A, 0xCEE1174C, 0xC499ED01, 0x717EEBD7), 0x21796AD4, 0x811BEA82);
    Turn(35, Regs(0x21796AD4, 0x2C0EBC11, 0x811BEA82, 0xCEE1174C, 0xC499ED01), 0xDCBBB0CB, 0x4B03AF04);
    Turn(36, Regs(0xDCBBB0CB, 0x21796AD4, 0x4B03AF04, 0x811BEA82, 0xCEE1174C), 0x0F511FD8, 0x085E5AB5);
    Turn(37, Regs(0x0F511FD8, 0xDCBBB0CB, 0x085E5AB5, 0x4B03AF04, 0x811BEA82), 0xDC63973F, 0xF72EEC32);
    Turn(38, Regs(0xDC63973F, 0x0F511FD8, 0xF72EEC32, 0x085E5AB5, 0x4B03AF04), 0x4C986405, 0x03D447F6);
    Turn(39, Regs(0x4C986405, 0xDC63973F, 0x03D447F6, 0xF72EEC32, 0x085E5AB5), 0x32DE1CBA, 0xF718E5CF);
  }

  lemma RoundsTo48()
    ensures Rounds(ABC, INITIAL, 48) == Regs(0xBEAD02CA, 0xA01B846C, 0x8714787C, 0x503CA382, 0xFB86C6AB)
  {
    hide Rounds;
    RoundsTo40();
    Turn(40, Regs(0x32DE1CBA, 0x4C986405, 0xF718E5CF, 0x03D447F6, 0xF72EEC32), 0xFC87DEDF, 0x53261901);
    Turn(41, Regs(0xFC87DEDF, 0x32DE1CBA, 0x53261901, 0xF718E5CF, 0x03D447F6), 0x970A0D5C, 0x8CB7872E);
    Turn(42, Regs(0x970A0D5C, 0xFC87DEDF, 0x8CB7872E, 0x53261901, 0xF718E5CF), 0x7F193DC5, 0xFF21F7B7);
    Turn(43, Regs(0x7F193DC5, 0x970A0D5C, 0xFF21F7B7, 0x8CB7872E, 0x53261901), 0xEE1B1AAF, 0x25C28357);
    Turn(44, Regs(0xEE1B1AAF, 0x7F193DC5, 0x25C28357, 0xFF21F7B7, 0x8CB7872E), 0x40F28E09, 0x5FC64F71);
    Turn(45, Regs(0x40F28E09, 0xEE1B1AAF, 0x5FC64F71, 0x25C28357, 0xFF21F7B7), 0x1C51E1F2, 0xFB86C6AB);
    Turn(46, Regs(0x1C51E1F2, 0x40F28E09, 0xFB86C6AB, 0x5FC64F71, 0x25C28357), 0xA01B846C, 0x503CA382);
    Turn(47, Regs(0xA01B846C, 0x1C51E1F2, 0x503CA382, 0xFB86C6AB, 0x5FC64F71), 0xBEAD02CA, 0x8714787C);
  }

  lemma RoundsTo56()
    ensures Rounds(ABC, INITIAL, 56) == Regs(0x5E6456AF, 0x7B71F76D, 0x09FA7C76, 0x792410DB, 0x8E11EB59)
  {
    hide Rounds;
    RoundsTo48();
    Turn(48, Regs(0xBEAD02CA, 0xA01B846C, 0x8714787C, 0x503CA382, 0xFB86C6AB), 0xBAF39337, 0x2806E11B);
    Turn(49, Regs(0xBAF39337, 0xBEAD02CA, 0x2806E11B, 0x8714787C, 0x503CA382), 0x120731C5, 0xAFAB40B2);
    Turn(50, Regs(0x120731C5, 0xBAF39337, 0xAFAB40B2, 0x2806E11B, 0x8714787C), 0x641DB2CE, 0xEEBCE4CD);
    Turn(51, Regs(0x641DB2CE, 0x120731C5, 0xEEBCE4CD, 0xAFAB40B2, 0x2806E11B), 0x3847AD66, 0x4481CC71);
    Turn(52, Regs(0x3847AD66, 0x641DB2CE, 0x4481CC71, 0xEEBCE4CD, 0xAFAB40B2), 0xE490436D, 0x99076CB3);
    Turn(53, Regs(0xE490436D, 0x3847AD66, 0x99076CB3, 0x4481CC71, 0xEEBCE4CD), 0x27E9F1D8, 0x8E11EB59);
    Turn(54, Regs(0x27E9F1D8, 0xE490436D, 0x8E11EB59, 0x99076CB3, 0x4481CC71), 0x7B71F76D, 0x792410DB);
    Turn(55, Regs(0x7B71F76D, 0x27E9F1D8, 0x792410DB, 0x8E11EB59, 0x99076CB3), 0x5E6456AF, 0x09FA7C76);
  }

  lemma RoundsTo64()
    ensures Rounds(ABC, INITIAL, 64) == Regs(0x6B61C9E1, 0xB66C020B, 0x9523272C, 0xF5D5B051, 0x8FD4B796)
  {
    hide Rounds;
    RoundsTo56();
    Turn(56, Regs(0x5E6456AF, 0x7B71F76D, 0x09FA7C76, 0x792410DB, 0x8E11EB59), 0xC846093F, 0x5EDC7DDB);
    Turn(57, Regs(0xC846093F, 0x5E6456AF, 0x5EDC7DDB, 0x09FA7C76, 0x792410DB), 0xD262FF50, 0xD79915AB);
    Turn(58, Regs(0xD262FF50, 0xC846093F, 0xD79915AB, 0x5EDC7DDB, 0x09FA7C76), 0x09D785FD, 0xF211824F);
    Turn(59, Regs(0x09D785FD, 0xD262FF50, 0xF211824F, 0xD79915AB, 0x5EDC7DDB), 0x3F52DE5A, 0x3498BFD4);
    Turn(60, Regs(0x3F52DE5A, 0x09D785FD, 0x3498BFD4, 0xF211824F, 0xD79915AB), 0xD756C147, 0x4275E17F);
    Turn(61, Regs(0xD756C147, 0x3F52DE5A, 0x4275E17F, 0x3498BFD4, 0xF211824F), 0x548C9CB2, 0x8FD4B796);
    Turn(62, Regs(0x548C9CB2, 0xD756C147, 0x8FD4B796, 0x4275E17F, 0x3498BFD4), 0xB66C020B, 0xF5D5B051);
    Turn(63, Regs(0xB66C020B, 0x548C9CB2, 0xF5D5B051, 0x8FD4B796, 0x4275E17F), 0x6B61C9E1, 0x9523272C);
  }

  lemma RoundsTo72()
    ensures Rounds(ABC, INITIAL, 72) == Regs(0x39859DE7, 0xC199F8C7, 0x8FC96230, 0x125C24F0, 0xDE37534A)
  {
    hide Rounds;
    RoundsTo64();
    Turn(64, Regs(0x6B61C9E1, 0xB66C020B, 0x9523272C, 0xF5D5B051, 0x8FD4B796), 0x19DFA7AC, 0xED9B0082);
    Turn(65, Regs(0x19DFA7AC, 0x6B61C9E1, 0xED9B0082, 0x9523272C, 0xF5D5B051), 0x101655F9, 0x5AD87278);
    Turn(66, Regs(0x101655F9, 0x19DFA7AC, 0x5AD87278, 0xED9B0082, 0x9523272C), 0x0C3DF2B4, 0x0677E9EB);
    Turn(67, Regs(0x0C3DF2B4, 0x101655F9, 0x0677E9EB, 0x5AD87278, 0xED9B0082), 0x78DD4D2B, 0x4405957E);
    Turn(68, Regs(0x78DD4D2B, 0x0C3DF2B4, 0x4405957E, 0x0677E9EB, 0x5AD87278), 0x497093C0, 0x030F7CAD);
    Turn(69, Regs(0x497093C0, 0x78DD4D2B, 0x030F7CAD, 0x4405957E, 0x0677E9EB), 0x3F2588C2, 0xDE37534A);
    Turn(70, Regs(0x3F2588C2, 0x497093C0, 0xDE37534A, 0x030F7CAD, 0x4405957E), 0xC199F8C7, 0x125C24F0);
    Turn(71, Regs(0xC199F8C7, 0x3F2588C2, 0x125C24F0, 0xDE37534A, 0x030F7CAD), 0x39859DE7, 0x8FC96230);
  }

  lemma RoundsTo80()
    ensures Rounds(ABC, INITIAL, 80) == Regs(0x42541B35, 0x5738D5E1, 0x21834873, 0x681E6DF6, 0xD8FDF6AD)
  {
    hide Rounds;
    RoundsTo72();
    Turn(72, Regs(0x39859DE7, 0xC199F8C7, 0x8FC96230, 0x125C24F0, 0xDE37534A), 0xEDB42DE4, 0xF0667E31);
    Turn(73, Regs(0xEDB42DE4, 0x39859DE7, 0xF0667E31, 0x8FC96230, 0x125C24F0), 0x11793F6F, 0xCE616779);
    Turn(74, Regs(0x11793F6F, 0xEDB42DE4, 0xCE616779, 0xF0667E31, 0x8FC96230), 0x5EE76897, 0x3B6D0B79);
    Turn(75, Regs(0x5EE76897, 0x11793F6F, 0x3B6D0B79, 0xCE616779, 0xF0667E31), 0x63F7DAB7, 0xC45E4FDB);
    Turn(76, Regs(0x63F7DAB7, 0x5EE76897, 0xC45E4FDB, 0x3B6D0B79, 0xCE616779), 0xA079B7D9, 0xD7B9DA25);
    Turn(77, Regs(0xA079B7D9, 0x63F7DAB7, 0xD7B9DA25, 0xC45E4FDB, 0x3B6D0B79), 0x860D21CC, 0xD8FDF6AD);
    Turn(78, Regs(0x860D21CC, 0xA079B7D9, 0xD8FDF6AD, 0xD7B9DA25, 0xC45E4FDB), 0x5738D5E1, 0x681E6DF6);
    Turn(79, Regs(0x5738D5E1, 0x860D21CC, 0x681E6DF6, 0xD8FDF6AD, 0xD7B9DA25), 0x42541B35, 0x21834873);
  }

  lemma AbcBlock()
    ensures var p := Pad([0x61, 0x62, 0x63]); |p| == 64 && WordsOf(p) == ABC
  {
    var p := Pad([0x61, 0x62, 0x63]);
    LengthOfAbc();
    hide LengthField;
    assert |p| == 64 && p[..4] == [0x61, 0x62, 0x63, 0x80] && forall i :: 4 <= i < 63 ==> p[i] == 0;
    assert p[63] == 24;
    hide Pad;
    var words := WordsOf(p);
    assert words[0] == WordOf(p[0..4]) == 0x61626380;
    assert words[15] == WordOf(p[60..64]) == 24;
    forall j | 0 < j < 15
      ensures words[j] == 0
    {
      assert p[4 * j..4 * j + 4] == [0, 0, 0, 0];
    }
  }

  lemma LengthOfAbc()
    ensures LengthField(24) == [0, 0, 0, 0, 0, 0, 0, 24]
  {
    hide LengthByte;
    Ends24();
  }

  lemma Ends24()
    ensures LengthByte(24, 7) == 24 && forall i :: 0 <= i < 7 ==> LengthByte(24, i) == 0
  {
    hide LengthByte;
    LastByte();
    forall i | 0 <= i < 7
      ensures LengthByte(24, i) == 0
    {
      ZeroByte(i);
    }
  }

  lemma LastByte()
    ensures LengthByte(24, 7) == 24
  {
    assert Pow256(0) == 1 && 24 % TWO_32 == 24 && 24 / 1 % 256 == 24;
  }

  lemma ZeroByte(i: nat)
    requires i < 7
    ensures LengthByte(24, i) == 0
  {
    if i < 4 {
      assert 24 / TWO_32 % TWO_32 == 0;
      Zeroed(0, Pow256(3 - i));
    } else {
      assert 24 % TWO_32 == 24;
      Zeroed(24, Pow256(7 - i));
    }
  }

  lemma Zeroed(half: nat, p: nat)
    requires p > 0 && half < p
    ensures half / p % 256 == 0
  {
  }

  lemma Bytes(w: Word, p: Byte, q: Byte, r: Byte, s: Byte)
    requires Join(p, q, r, s) == w
    ensures ByteAt(w, 0) == p && ByteAt(w, 1) == q && ByteAt(w, 2) == r && ByteAt(w, 3) == s
  {
  }

  lemma DigestOfRegs()
    ensures DigestBytes(Regs(0xA9993E36, 0x4706816A, 0xBA3E2571, 0x7850C26C, 0x9CD0D89D))
         == [0xA9, 0x99, 0x3E, 0x36, 0x47, 0x06, 0x81, 0x6A, 0xBA, 0x3E,
             0x25, 0x71, 0x78, 0x50, 0xC2, 0x6C, 0x9C, 0xD0, 0xD8, 0x9D]
  {
    hide ByteAt;
    Bytes(0xA9993E36, 0xA9, 0x99, 0x3E, 0x36);
    Bytes(0x4706816A, 0x47, 0x06, 0x81, 0x6A);
    Bytes(0xBA3E2571, 0xBA, 0x3E, 0x25, 0x71);
    Bytes(0x7850C26C, 0x78, 0x50, 0xC2, 0x6C);
    Bytes(0x9CD0D89D, 0x9C, 0xD0, 0xD8, 0x9D);
  }

  /** The digest of "abc" is the one that the RFC prints. */
  lemma DigestOfAbc()
    ensures Digest([0x61, 0x62, 0x63])
         == [0xA9, 0x99, 0x3E, 0x36, 0x47, 0x06, 0x81, 0x6A, 0xBA, 0x3E,
             0x25, 0x71, 0x78, 0x50, 0xC2, 0x6C, 0x9C, 0xD0, 0xD8, 0x9D]
  {
    hide Rounds, WordsOf, Pad, DigestBytes;
    AbcBlock();
    RoundsTo80();
    var p, r := Pad([0x61, 0x62, 0x63]), Regs(0xA9993E36, 0x4706816A, 0xBA3E2571, 0x7850C26C, 0x9CD0D89D);
    assert p[..64] == p && p[64..] == [];
    assert Compress(INITIAL, p) == Add(INITIAL, Rounds(ABC, INITIAL, 80)) == r;
    assert Absorb(INITIAL, p) == Absorb(r, []) == r;
    DigestOfRegs();
  }
}
