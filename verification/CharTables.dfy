// The name-character tables of the XML parser and the binary search over them
// (src/upnpdom/Parser.cpp:60-183).
module CharTables {

  // One row of a table: the closed range of code points from l to h.
  datatype CharRange = R(l: int, h: int)

  // Rows lie between lo and hi, none is empty, and each row ends before the next begins.
  ghost predicate Ascending(t: seq<CharRange>, lo: int, hi: int) {
    && (forall i :: 0 <= i < |t| ==> lo <= t[i].l <= t[i].h <= hi)
    && (forall i, j :: 0 <= i < j < |t| ==> t[i].h < t[j].l)
  }

  ghost predicate InTable(c: int, t: seq<CharRange>) {
    exists i :: 0 <= i < |t| && t[i].l <= c <= t[i].h
  }

  // The search of intbl: over ascending rows it decides membership.
  method InTbl(c: int, t: seq<CharRange>) returns (found: bool)
    requires Ascending(t, 0, 0xFFFF)
    ensures found <==> InTable(c, t)
  {
    var top, bottom := 0, |t| - 1;
    while top <= bottom
      invariant 0 <= top <= bottom + 1 <= |t|
      invariant forall i :: 0 <= i < |t| && t[i].l <= c <= t[i].h ==> top <= i <= bottom
    {
      var m := (top + bottom) / 2;
      if c < t[m].l {
        bottom := m - 1;
      } else if c > t[m].h {
        top := m + 1;
      } else {
        return true;
      }
    }
    return false;
  }

  const N_ROW_0 := [
    R(0x003A, 0x003A), R(0x0041, 0x005A), R(0x005F, 0x005F), R(0x0061, 0x007A), R(0x00C0, 0x00D6),
    R(0x00D8, 0x00F6), R(0x00F8, 0x00FF), R(0x0100, 0x0131), R(0x0134, 0x013E)]
  const N_ROW_1 := [
    R(0x0141, 0x0148), R(0x014A, 0x017E), R(0x0180, 0x01C3), R(0x01CD, 0x01F0), R(0x01F4, 0x01F5),
    R(0x01FA, 0x0217), R(0x0250, 0x02A8), R(0x02BB, 0x02C1), R(0x0386, 0x0386)]
  const N_ROW_2 := [
    R(0x0388, 0x038A), R(0x038C, 0x038C), R(0x038E, 0x03A1), R(0x03A3, 0x03CE), R(0x03D0, 0x03D6),
    R(0x03DA, 0x03DA), R(0x03DC, 0x03DC), R(0x03DE, 0x03DE), R(0x03E0, 0x03E0)]
  const N_ROW_3 := [
    R(0x03E2, 0x03F3), R(0x0401, 0x040C), R(0x040E, 0x044F), R(0x0451, 0x045C), R(0x045E, 0x0481),
    R(0x0490, 0x04C4), R(0x04C7, 0x04C8), R(0x04CB, 0x04CC), R(0x04D0, 0x04EB)]
  const N_ROW_4 := [
    R(0x04EE, 0x04F5), R(0x04F8, 0x04F9), R(0x0531, 0x0556), R(0x0559, 0x0559), R(0x0561, 0x0586),
    R(0x05D0, 0x05EA), R(0x05F0, 0x05F2), R(0x0621, 0x063A), R(0x0641, 0x064A)]
  const N_ROW_5 := [
    R(0x0671, 0x06B7), R(0x06BA, 0x06BE), R(0x06C0, 0x06CE), R(0x06D0, 0x06D3), R(0x06D5, 0x06D5),
    R(0x06E5, 0x06E6), R(0x0905, 0x0939), R(0x093D, 0x093D), R(0x0958, 0x0961)]
  const N_ROW_6 := [
    R(0x0985, 0x098C), R(0x098F, 0x0990), R(0x0993, 0x09A8), R(0x09AA, 0x09B0), R(0x09B2, 0x09B2),
    R(0x09B6, 0x09B9), R(0x09DC, 0x09DD), R(0x09DF, 0x09E1), R(0x09F0, 0x09F1)]
  const N_ROW_7 := [
    R(0x0A05, 0x0A0A), R(0x0A0F, 0x0A10), R(0x0A13, 0x0A28), R(0x0A2A, 0x0A30), R(0x0A32, 0x0A33),
    R(0x0A35, 0x0A36), R(0x0A38, 0x0A39), R(0x0A59, 0x0A5C), R(0x0A5E, 0x0A5E)]
  const N_ROW_8 := [
    R(0x0A72, 0x0A74), R(0x0A85, 0x0A8B), R(0x0A8D, 0x0A8D), R(0x0A8F, 0x0A91), R(0x0A93, 0x0AA8),
    R(0x0AAA, 0x0AB0), R(0x0AB2, 0x0AB3), R(0x0AB5, 0x0AB9), R(0x0ABD, 0x0ABD)]
  const N_ROW_9 := [
    R(0x0AE0, 0x0AE0), R(0x0B05, 0x0B0C), R(0x0B0F, 0x0B10), R(0x0B13, 0x0B28), R(0x0B2A, 0x0B30),
    R(0x0B32, 0x0B33), R(0x0B36, 0x0B39), R(0x0B3D, 0x0B3D), R(0x0B5C, 0x0B5D)]
  const N_ROW_10 := [
    R(0x0B5F, 0x0B61), R(0x0B85, 0x0B8A), R(0x0B8E, 0x0B90), R(0x0B92, 0x0B95), R(0x0B99, 0x0B9A),
    R(0x0B9C, 0x0B9C), R(0x0B9E, 0x0B9F), R(0x0BA3, 0x0BA4), R(0x0BA8, 0x0BAA)]
  const N_ROW_11 := [
    R(0x0BAE, 0x0BB5), R(0x0BB7, 0x0BB9), R(0x0C05, 0x0C0C), R(0x0C0E, 0x0C10), R(0x0C12, 0x0C28),
    R(0x0C2A, 0x0C33), R(0x0C35, 0x0C39), R(0x0C60, 0x0C61), R(0x0C85, 0x0C8C)]
  const N_ROW_12 := [
    R(0x0C8E, 0x0C90), R(0x0C92, 0x0CA8), R(0x0CAA, 0x0CB3), R(0x0CB5, 0x0CB9), R(0x0CDE, 0x0CDE),
    R(0x0CE0, 0x0CE1), R(0x0D05, 0x0D0C), R(0x0D0E, 0x0D10), R(0x0D12, 0x0D28)]
  const N_ROW_13 := [
    R(0x0D2A, 0x0D39), R(0x0D60, 0x0D61), R(0x0E01, 0x0E2E), R(0x0E30, 0x0E30), R(0x0E32, 0x0E33),
    R(0x0E40, 0x0E45), R(0x0E81, 0x0E82), R(0x0E84, 0x0E84), R(0x0E87, 0x0E88)]
  const N_ROW_14 := [
    R(0x0E8A, 0x0E8A), R(0x0E8D, 0x0E8D), R(0x0E94, 0x0E97), R(0x0E99, 0x0E9F), R(0x0EA1, 0x0EA3),
    R(0x0EA5, 0x0EA5), R(0x0EA7, 0x0EA7), R(0x0EAA, 0x0EAB), R(0x0EAD, 0x0EAE)]
  const N_ROW_15 := [
    R(0x0EB0, 0x0EB0), R(0x0EB2, 0x0EB3), R(0x0EBD, 0x0EBD), R(0x0EC0, 0x0EC4), R(0x0F40, 0x0F47),
    R(0x0F49, 0x0F69), R(0x10A0, 0x10C5), R(0x10D0, 0x10F6), R(0x1100, 0x1100)]
  const N_ROW_16 := [
    R(0x1102, 0x1103), R(0x1105, 0x1107), R(0x1109, 0x1109), R(0x110B, 0x110C), R(0x110E, 0x1112),
    R(0x113C, 0x113C), R(0x113E, 0x113E), R(0x1140, 0x1140), R(0x114C, 0x114C)]
  const N_ROW_17 := [
    R(0x114E, 0x114E), R(0x1150, 0x1150), R(0x1154, 0x1155), R(0x1159, 0x1159), R(0x115F, 0x1161),
    R(0x1163, 0x1163), R(0x1165, 0x1165), R(0x1167, 0x1167), R(0x1169, 0x1169)]
  const N_ROW_18 := [
    R(0x116D, 0x116E), R(0x1172, 0x1173), R(0x1175, 0x1175), R(0x119E, 0x119E), R(0x11A8, 0x11A8),
    R(0x11AB, 0x11AB), R(0x11AE, 0x11AF), R(0x11B7, 0x11B8), R(0x11BA, 0x11BA)]
  const N_ROW_19 := [
    R(0x11BC, 0x11C2), R(0x11EB, 0x11EB), R(0x11F0, 0x11F0), R(0x11F9, 0x11F9), R(0x1E00, 0x1E9B),
    R(0x1EA0, 0x1EF9), R(0x1F00, 0x1F15), R(0x1F18, 0x1F1D), R(0x1F20, 0x1F45)]
  const N_ROW_20 := [
    R(0x1F48, 0x1F4D), R(0x1F50, 0x1F57), R(0x1F59, 0x1F59), R(0x1F5B, 0x1F5B), R(0x1F5D, 0x1F5D),
    R(0x1F5F, 0x1F7D), R(0x1F80, 0x1FB4), R(0x1FB6, 0x1FBC), R(0x1FBE, 0x1FBE)]
  const N_ROW_21 := [
    R(0x1FC2, 0x1FC4), R(0x1FC6, 0x1FCC), R(0x1FD0, 0x1FD3), R(0x1FD6, 0x1FDB), R(0x1FE0, 0x1FEC),
    R(0x1FF2, 0x1FF4), R(0x1FF6, 0x1FFC), R(0x2126, 0x2126), R(0x212A, 0x212B)]
  const N_ROW_22 := [
    R(0x212E, 0x212E), R(0x2180, 0x2182), R(0x3007, 0x3007), R(0x3021, 0x3029), R(0x3041, 0x3094),
    R(0x30A1, 0x30FA), R(0x3105, 0x312C), R(0x4E00, 0x9FA5), R(0xAC00, 0xD7A3)]
  const N_PART_0 := N_ROW_0 + N_ROW_1 + N_ROW_2 + N_ROW_3 + N_ROW_4 + N_ROW_5
  const N_PART_1 := N_ROW_6 + N_ROW_7 + N_ROW_8 + N_ROW_9 + N_ROW_10 + N_ROW_11
  const N_PART_2 := N_ROW_12 + N_ROW_13 + N_ROW_14 + N_ROW_15 + N_ROW_16 + N_ROW_17
  const N_PART_3 := N_ROW_18 + N_ROW_19 + N_ROW_20 + N_ROW_21 + N_ROW_22

  // All 207 rows of n_tbl.
  const N_TBL := N_PART_0 + N_PART_1 + N_PART_2 + N_PART_3

  const NCH_ROW_0 := [
    R(0x002D, 0x002D), R(0x002E, 0x002E), R(0x0030, 0x0039), R(0x00B7, 0x00B7), R(0x02D0, 0x02D0),
    R(0x02D1, 0x02D1), R(0x0300, 0x0345), R(0x0360, 0x0361), R(0x0387, 0x0387)]
  const NCH_ROW_1 := [
    R(0x0483, 0x0486), R(0x0591, 0x05A1), R(0x05A3, 0x05B9), R(0x05BB, 0x05BD), R(0x05BF, 0x05BF),
    R(0x05C1, 0x05C2), R(0x05C4, 0x05C4), R(0x0640, 0x0640), R(0x064B, 0x0652)]
  const NCH_ROW_2 := [
    R(0x0660, 0x0669), R(0x0670, 0x0670), R(0x06D6, 0x06DC), R(0x06DD, 0x06DF), R(0x06E0, 0x06E4),
    R(0x06E7, 0x06E8), R(0x06EA, 0x06ED), R(0x06F0, 0x06F9), R(0x0901, 0x0903)]
  const NCH_ROW_3 := [
    R(0x093C, 0x093C), R(0x093E, 0x094C), R(0x094D, 0x094D), R(0x0951, 0x0954), R(0x0962, 0x0963),
    R(0x0966, 0x096F), R(0x0981, 0x0983), R(0x09BC, 0x09BC), R(0x09BE, 0x09BE)]
  const NCH_ROW_4 := [
    R(0x09BF, 0x09BF), R(0x09C0, 0x09C4), R(0x09C7, 0x09C8), R(0x09CB, 0x09CD), R(0x09D7, 0x09D7),
    R(0x09E2, 0x09E3), R(0x09E6, 0x09EF), R(0x0A02, 0x0A02), R(0x0A3C, 0x0A3C)]
  const NCH_ROW_5 := [
    R(0x0A3E, 0x0A3E), R(0x0A3F, 0x0A3F), R(0x0A40, 0x0A42), R(0x0A47, 0x0A48), R(0x0A4B, 0x0A4D),
    R(0x0A66, 0x0A6F), R(0x0A70, 0x0A71), R(0x0A81, 0x0A83), R(0x0ABC, 0x0ABC)]
  const NCH_ROW_6 := [
    R(0x0ABE, 0x0AC5), R(0x0AC7, 0x0AC9), R(0x0ACB, 0x0ACD), R(0x0AE6, 0x0AEF), R(0x0B01, 0x0B03),
    R(0x0B3C, 0x0B3C), R(0x0B3E, 0x0B43), R(0x0B47, 0x0B48), R(0x0B4B, 0x0B4D)]
  const NCH_ROW_7 := [
    R(0x0B56, 0x0B57), R(0x0B66, 0x0B6F), R(0x0B82, 0x0B83), R(0x0BBE, 0x0BC2), R(0x0BC6, 0x0BC8),
    R(0x0BCA, 0x0BCD), R(0x0BD7, 0x0BD7), R(0x0BE7, 0x0BEF), R(0x0C01, 0x0C03)]
  const NCH_ROW_8 := [
    R(0x0C3E, 0x0C44), R(0x0C46, 0x0C48), R(0x0C4A, 0x0C4D), R(0x0C55, 0x0C56), R(0x0C66, 0x0C6F),
    R(0x0C82, 0x0C83), R(0x0CBE, 0x0CC4), R(0x0CC6, 0x0CC8), R(0x0CCA, 0x0CCD)]
  const NCH_ROW_9 := [
    R(0x0CD5, 0x0CD6), R(0x0CE6, 0x0CEF), R(0x0D02, 0x0D03), R(0x0D3E, 0x0D43), R(0x0D46, 0x0D48),
    R(0x0D4A, 0x0D4D), R(0x0D57, 0x0D57), R(0x0D66, 0x0D6F), R(0x0E31, 0x0E31)]
  const NCH_ROW_10 := [
    R(0x0E34, 0x0E3A), R(0x0E46, 0x0E46), R(0x0E47, 0x0E4E), R(0x0E50, 0x0E59), R(0x0EB1, 0x0EB1),
    R(0x0EB4, 0x0EB9), R(0x0EBB, 0x0EBC), R(0x0EC6, 0x0EC6), R(0x0EC8, 0x0ECD)]
  const NCH_ROW_11 := [
    R(0x0ED0, 0x0ED9), R(0x0F18, 0x0F19), R(0x0F20, 0x0F29), R(0x0F35, 0x0F35), R(0x0F37, 0x0F37),
    R(0x0F39, 0x0F39), R(0x0F3E, 0x0F3E), R(0x0F3F, 0x0F3F), R(0x0F71, 0x0F84)]
  const NCH_ROW_12 := [
    R(0x0F86, 0x0F8B), R(0x0F90, 0x0F95), R(0x0F97, 0x0F97), R(0x0F99, 0x0FAD), R(0x0FB1, 0x0FB7),
    R(0x0FB9, 0x0FB9), R(0x20D0, 0x20DC), R(0x20E1, 0x20E1), R(0x3005, 0x3005)]
  const NCH_ROW_13 := [
    R(0x302A, 0x302F), R(0x3031, 0x3035), R(0x3099, 0x3099), R(0x309A, 0x309A), R(0x309D, 0x309E),
    R(0x30FC, 0x30FE)]
  const NCH_PART_0 := NCH_ROW_0 + NCH_ROW_1 + NCH_ROW_2 + NCH_ROW_3 + NCH_ROW_4 + NCH_ROW_5
  const NCH_PART_1 := NCH_ROW_6 + NCH_ROW_7 + NCH_ROW_8 + NCH_ROW_9 + NCH_ROW_10 + NCH_ROW_11
  const NCH_PART_2 := NCH_ROW_12 + NCH_ROW_13

  // All 123 rows of nch_tbl.
  const NCH_TBL := NCH_PART_0 + NCH_PART_1 + NCH_PART_2

  // Up to nine rows in ascending order, written out without quantifiers.
  ghost predicate Chain(t: seq<CharRange>) {
    && 0 < |t| <= 9
    && t[0].l <= t[0].h
    && (|t| > 1 ==> t[0].h < t[1].l <= t[1].h)
    && (|t| > 2 ==> t[1].h < t[2].l <= t[2].h)
    && (|t| > 3 ==> t[2].h < t[3].l <= t[3].h)
    && (|t| > 4 ==> t[3].h < t[4].l <= t[4].h)
    && (|t| > 5 ==> t[4].h < t[5].l <= t[5].h)
    && (|t| > 6 ==> t[5].h < t[6].l <= t[6].h)
    && (|t| > 7 ==> t[6].h < t[7].l <= t[7].h)
    && (|t| > 8 ==> t[7].h < t[8].l <= t[8].h)
  }

  lemma ChainIsAscending(t: seq<CharRange>)
    requires Chain(t)
    ensures Ascending(t, t[0].l, t[|t| - 1].h)
  {
  }

  lemma Join(a: seq<CharRange>, b: seq<CharRange>, lo: int, m: int, n: int, hi: int)
    requires Ascending(a, lo, m) && Ascending(b, n, hi) && lo <= m < n <= hi
    ensures Ascending(a + b, lo, hi)
  {
  }

  lemma NameAscending0()
    ensures Ascending(N_PART_0, 0x003A, 0x0961)
  {
    var t := N_ROW_0;
    ChainIsAscending(t);
    ChainIsAscending(N_ROW_1);
    Join(t, N_ROW_1, 0x003A, 0x013E, 0x0141, 0x0386);
    t := t + N_ROW_1;
    ChainIsAscending(N_ROW_2);
    Join(t, N_ROW_2, 0x003A, 0x0386, 0x0388, 0x03E0);
    t := t + N_ROW_2;
    ChainIsAscending(N_ROW_3);
    Join(t, N_ROW_3, 0x003A, 0x03E0, 0x03E2, 0x04EB);
    t := t + N_ROW_3;
    ChainIsAscending(N_ROW_4);
    Join(t, N_ROW_4, 0x003A, 0x04EB, 0x04EE, 0x064A);
    t := t + N_ROW_4;
    ChainIsAscending(N_ROW_5);
    Join(t, N_ROW_5, 0x003A, 0x064A, 0x0671, 0x0961);
    t := t + N_ROW_5;
  }

  lemma NameAscending1()
    ensures Ascending(N_PART_1, 0x0985, 0x0C8C)
  {
    var t := N_ROW_6;
    ChainIsAscending(t);
    ChainIsAscending(N_ROW_7);
    Join(t, N_ROW_7, 0x0985, 0x09F1, 0x0A05, 0x0A5E);
    t := t + N_ROW_7;
    ChainIsAscending(N_ROW_8);
    Join(t, N_ROW_8, 0x0985, 0x0A5E, 0x0A72, 0x0ABD);
    t := t + N_ROW_8;
    ChainIsAscending(N_ROW_9);
    Join(t, N_ROW_9, 0x0985, 0x0ABD, 0x0AE0, 0x0B5D);
    t := t + N_ROW_9;
    ChainIsAscending(N_ROW_10);
    Join(t, N_ROW_10, 0x0985, 0x0B5D, 0x0B5F, 0x0BAA);
    t := t + N_ROW_10;
    ChainIsAscending(N_ROW_11);
    Join(t, N_ROW_11, 0x0985, 0x0BAA, 0x0BAE, 0x0C8C);
    t := t + N_ROW_11;
  }

  lemma NameAscending2()
    ensures Ascending(N_PART_2, 0x0C8E, 0x1169)
  {
    var t := N_ROW_12;
    ChainIsAscending(t);
    ChainIsAscending(N_ROW_13);
    Join(t, N_ROW_13, 0x0C8E, 0x0D28, 0x0D2A, 0x0E88);
    t := t + N_ROW_13;
    ChainIsAscending(N_ROW_14);
    Join(t, N_ROW_14, 0x0C8E, 0x0E88, 0x0E8A, 0x0EAE);
    t := t + N_ROW_14;
    ChainIsAscending(N_ROW_15);
    Join(t, N_ROW_15, 0x0C8E, 0x0EAE, 0x0EB0, 0x1100);
    t := t + N_ROW_15;
    ChainIsAscending(N_ROW_16);
    Join(t, N_ROW_16, 0x0C8E, 0x1100, 0x1102, 0x114C);
    t := t + N_ROW_16;
    ChainIsAscending(N_ROW_17);
    Join(t, N_ROW_17, 0x0C8E, 0x114C, 0x114E, 0x1169);
    t := t + N_ROW_17;
  }

  lemma NameAscending3()
    ensures Ascending(N_PART_3, 0x116D, 0xD7A3)
  {
    var t := N_ROW_18;
    ChainIsAscending(t);
    ChainIsAscending(N_ROW_19);
    Join(t, N_ROW_19, 0x116D, 0x11BA, 0x11BC, 0x1F45);
    t := t + N_ROW_19;
    ChainIsAscending(N_ROW_20);
    Join(t, N_ROW_20, 0x116D, 0x1F45, 0x1F48, 0x1FBE);
    t := t + N_ROW_20;
    ChainIsAscending(N_ROW_21);
    Join(t, N_ROW_21, 0x116D, 0x1FBE, 0x1FC2, 0x212B);
    t := t + N_ROW_21;
    ChainIsAscending(N_ROW_22);
    Join(t, N_ROW_22, 0x116D, 0x212B, 0x212E, 0xD7A3);
    t := t + N_ROW_22;
  }

  lemma NameCharAscending0()
    ensures Ascending(NCH_PART_0, 0x002D, 0x0ABC)
  {
    var t := NCH_ROW_0;
    ChainIsAscending(t);
    ChainIsAscending(NCH_ROW_1);
    Join(t, NCH_ROW_1, 0x002D, 0x0387, 0x0483, 0x0652);
    t := t + NCH_ROW_1;
    ChainIsAscending(NCH_ROW_2);
    Join(t, NCH_ROW_2, 0x002D, 0x0652, 0x0660, 0x0903);
    t := t + NCH_ROW_2;
    ChainIsAscending(NCH_ROW_3);
    Join(t, NCH_ROW_3, 0x002D, 0x0903, 0x093C, 0x09BE);
    t := t + NCH_ROW_3;
    ChainIsAscending(NCH_ROW_4);
    Join(t, NCH_ROW_4, 0x002D, 0x09BE, 0x09BF, 0x0A3C);
    t := t + NCH_ROW_4;
    ChainIsAscending(NCH_ROW_5);
    Join(t, NCH_ROW_5, 0x002D, 0x0A3C, 0x0A3E, 0x0ABC);
    t := t + NCH_ROW_5;
  }

  lemma NameCharAscending1()
    ensures Ascending(NCH_PART_1, 0x0ABE, 0x0F84)
  {
    var t := NCH_ROW_6;
    ChainIsAscending(t);
    ChainIsAscending(NCH_ROW_7);
    Join(t, NCH_ROW_7, 0x0ABE, 0x0B4D, 0x0B56, 0x0C03);
    t := t + NCH_ROW_7;
    ChainIsAscending(NCH_ROW_8);
    Join(t, NCH_ROW_8, 0x0ABE, 0x0C03, 0x0C3E, 0x0CCD);
    t := t + NCH_ROW_8;
    ChainIsAscending(NCH_ROW_9);
    Join(t, NCH_ROW_9, 0x0ABE, 0x0CCD, 0x0CD5, 0x0E31);
    t := t + NCH_ROW_9;
    ChainIsAscending(NCH_ROW_10);
    Join(t, NCH_ROW_10, 0x0ABE, 0x0E31, 0x0E34, 0x0ECD);
    t := t + NCH_ROW_10;
    ChainIsAscending(NCH_ROW_11);
    Join(t, NCH_ROW_11, 0x0ABE, 0x0ECD, 0x0ED0, 0x0F84);
    t := t + NCH_ROW_11;
  }

  lemma NameCharAscending2()
    ensures Ascending(NCH_PART_2, 0x0F86, 0x30FE)
  {
    var t := NCH_ROW_12;
    ChainIsAscending(t);
    ChainIsAscending(NCH_ROW_13);
    Join(t, NCH_ROW_13, 0x0F86, 0x3005, 0x302A, 0x30FE);
    t := t + NCH_ROW_13;
  }

  // The rows of n_tbl ascend, as the binary search needs.
  lemma NameTableAscending()
    ensures Ascending(N_TBL, 0x003A, 0xD7A3)
  {
    NameAscending0();
    var t := N_PART_0;
    NameAscending1();
    Join(t, N_PART_1, 0x003A, 0x0961, 0x0985, 0x0C8C);
    t := t + N_PART_1;
    NameAscending2();
    Join(t, N_PART_2, 0x003A, 0x0C8C, 0x0C8E, 0x1169);
    t := t + N_PART_2;
    NameAscending3();
    Join(t, N_PART_3, 0x003A, 0x1169, 0x116D, 0xD7A3);
    t := t + N_PART_3;
  }

  // The rows of nch_tbl ascend, as the binary search needs.
  lemma NameCharTableAscending()
    ensures Ascending(NCH_TBL, 0x002D, 0x30FE)
  {
    NameCharAscending0();
    var t := NCH_PART_0;
    NameCharAscending1();
    Join(t, NCH_PART_1, 0x002D, 0x0ABC, 0x0ABE, 0x0F84);
    t := t + NCH_PART_1;
    NameCharAscending2();
    Join(t, NCH_PART_2, 0x002D, 0x0F84, 0x0F86, 0x30FE);
    t := t + NCH_PART_2;
  }

  // A code point between two neighbouring rows, or below the first, is in no row.
  lemma GapIsOutside(t: seq<CharRange>, c: int, k: nat)
    requires Ascending(t, 0, 0xFFFF)
    requires k < |t| && c < t[k].l && (k > 0 ==> t[k - 1].h < c)
    ensures !InTable(c, t)
  {
  }

  lemma FirstRows()
    ensures |N_TBL| > 1 && N_TBL[0] == R(0x3A, 0x3A) && N_TBL[1] == R(0x41, 0x5A)
    ensures |NCH_TBL| > 3 && NCH_TBL[0] == R(0x2D, 0x2D) && NCH_TBL[1] == R(0x2E, 0x2E)
    ensures NCH_TBL[2] == R(0x30, 0x39) && NCH_TBL[3].l == 0xB7
  {
  }

  // A code point that may start a name, or, with second set, continue one.
  ghost predicate IsNameCh(c: int, second: bool) {
    InTable(c, N_TBL) || (second && InTable(c, NCH_TBL))
  }

  method IsNameChar(c: int, second: bool) returns (r: bool)
    ensures r <==> IsNameCh(c, second)
  {
    NameTableAscending();
    NameCharTableAscending();
    r := InTbl(c, N_TBL);
    if !r && second {
      r := InTbl(c, NCH_TBL);
    }
  }

  // Code points that are in neither table: everything below the hyphen, and / < = > ?.
  predicate Punctuation(c: int) {
    c < 0x2D || c == 0x2F || 0x3C <= c <= 0x3F
  }

  lemma PunctuationIsNoName(c: int)
    requires Punctuation(c)
    ensures !IsNameCh(c, true) && !IsNameCh(c, false)
  {
    NameTableAscending();
    NameCharTableAscending();
    FirstRows();
    hide N_TBL, NCH_TBL, InTable, Ascending;
    assert Ascending(N_TBL, 0, 0xFFFF) && Ascending(NCH_TBL, 0, 0xFFFF) by { Widen(); }
    GapIsOutside(N_TBL, c, if c < 0x3A then 0 else 1);
    GapIsOutside(NCH_TBL, c, if c < 0x2D then 0 else if c < 0x30 then 2 else 3);
  }

  lemma Widen()
    ensures Ascending(N_TBL, 0, 0xFFFF) && Ascending(NCH_TBL, 0, 0xFFFF)
  {
    hide N_TBL, NCH_TBL;
    NameTableAscending();
    NameCharTableAscending();
  }

  lemma MoreRows()
    ensures |N_TBL| > 4 && N_TBL[2] == R(0x5F, 0x5F) && N_TBL[3] == R(0x61, 0x7A) && N_TBL[4].l == 0xC0
  {
  }

  // Of the ASCII characters a name may begin with a letter, an underscore or a colon; digits, hyphens
  // and dots may follow.
  lemma AsciiNames(c: int)
    requires 0 <= c < 128
    ensures IsNameCh(c, false) <==> 65 <= c <= 90 || 97 <= c <= 122 || c == 95 || c == 58
    ensures IsNameCh(c, true) <==> IsNameCh(c, false) || 48 <= c <= 57 || c == 45 || c == 46
  {
    FirstRows();
    MoreRows();
    hide N_TBL, NCH_TBL, Ascending;
    Widen();
    if !(65 <= c <= 90 || 97 <= c <= 122 || c == 95 || c == 58) {
      GapIsOutside(N_TBL, c, if c < 58 then 0 else if c < 65 then 1 else if c < 95 then 2 else if c < 97 then 3 else 4);
    }
    if !(48 <= c <= 57 || c == 45 || c == 46) {
      GapIsOutside(NCH_TBL, c, if c < 45 then 0 else if c < 48 then 2 else 3);
    }
    assert N_TBL[0].l <= c <= N_TBL[0].h <==> c == 58;
  }
}
