/**
  The two sets of tables between microseconds and 32-bit fractions of a second, sixteen entries a row, and how far
  each entry is from the multiple of the unit it stands for.
 */
module TimestampTables {

  /** Every entry, times scale, is between low and high away from its index times unit; r is the row's number. */
  predicate Near(row: seq<int>, r: nat, scale: int, unit: int, low: int, high: int) {
    |row| == 16 && forall k :: 0 <= k < 16 ==> low <= row[k] * scale - (16 * r + k) * unit <= high
  }

  // ---------- ustotslo ----------

  const USTOTSLO_0: seq<int> := [
    0x00000000, 0x000010c7, 0x0000218e, 0x00003255, 0x0000431c, 0x000053e3, 0x000064aa, 0x00007571,
    0x00008638, 0x000096ff, 0x0000a7c6, 0x0000b88d, 0x0000c954, 0x0000da1b, 0x0000eae2, 0x0000fba9]
  const USTOTSLO_1: seq<int> := [
    0x00010c6f, 0x00011d36, 0x00012dfd, 0x00013ec4, 0x00014f8b, 0x00016052, 0x00017119, 0x000181e0,
    0x000192a7, 0x0001a36e, 0x0001b435, 0x0001c4fc, 0x0001d5c3, 0x0001e68a, 0x0001f751, 0x00020818]
  const USTOTSLO_2: seq<int> := [
    0x000218df, 0x000229a6, 0x00023a6d, 0x00024b34, 0x00025bfb, 0x00026cc2, 0x00027d89, 0x00028e50,
    0x00029f17, 0x0002afde, 0x0002c0a5, 0x0002d16c, 0x0002e233, 0x0002f2fa, 0x000303c0, 0x00031487]
  const USTOTSLO_3: seq<int> := [
    0x0003254e, 0x00033615, 0x000346dc, 0x000357a3, 0x0003686a, 0x00037931, 0x000389f8, 0x00039abf,
    0x0003ab86, 0x0003bc4d, 0x0003cd14, 0x0003dddb, 0x0003eea2, 0x0003ff69, 0x00041030, 0x000420f7]
  const USTOTSLO_4: seq<int> := [
    0x000431be, 0x00044285, 0x0004534c, 0x00046413, 0x000474da, 0x000485a1, 0x00049668, 0x0004a72f,
    0x0004b7f6, 0x0004c8bd, 0x0004d984, 0x0004ea4b, 0x0004fb12, 0x00050bd8, 0x00051c9f, 0x00052d66]
  const USTOTSLO_5: seq<int> := [
    0x00053e2d, 0x00054ef4, 0x00055fbb, 0x00057082, 0x00058149, 0x00059210, 0x0005a2d7, 0x0005b39e,
    0x0005c465, 0x0005d52c, 0x0005e5f3, 0x0005f6ba, 0x00060781, 0x00061848, 0x0006290f, 0x000639d6]
  const USTOTSLO_6: seq<int> := [
    0x00064a9d, 0x00065b64, 0x00066c2b, 0x00067cf2, 0x00068db9, 0x00069e80, 0x0006af47, 0x0006c00e,
    0x0006d0d5, 0x0006e19c, 0x0006f263, 0x00070329, 0x000713f0, 0x000724b7, 0x0007357e, 0x00074645]
  const USTOTSLO_7: seq<int> := [
    0x0007570c, 0x000767d3, 0x0007789a, 0x00078961, 0x00079a28, 0x0007aaef, 0x0007bbb6, 0x0007cc7d,
    0x0007dd44, 0x0007ee0b, 0x0007fed2, 0x00080f99, 0x00082060, 0x00083127, 0x000841ee, 0x000852b5]
  const USTOTSLO_8: seq<int> := [
    0x0008637c, 0x00087443, 0x0008850a, 0x000895d1, 0x0008a698, 0x0008b75f, 0x0008c826, 0x0008d8ed,
    0x0008e9b4, 0x0008fa7b, 0x00090b41, 0x00091c08, 0x00092ccf, 0x00093d96, 0x00094e5d, 0x00095f24]
  const USTOTSLO_9: seq<int> := [
    0x00096feb, 0x000980b2, 0x00099179, 0x0009a240, 0x0009b307, 0x0009c3ce, 0x0009d495, 0x0009e55c,
    0x0009f623, 0x000a06ea, 0x000a17b1, 0x000a2878, 0x000a393f, 0x000a4a06, 0x000a5acd, 0x000a6b94]
  const USTOTSLO_10: seq<int> := [
    0x000a7c5b, 0x000a8d22, 0x000a9de9, 0x000aaeb0, 0x000abf77, 0x000ad03e, 0x000ae105, 0x000af1cc,
    0x000b0292, 0x000b1359, 0x000b2420, 0x000b34e7, 0x000b45ae, 0x000b5675, 0x000b673c, 0x000b7803]
  const USTOTSLO_11: seq<int> := [
    0x000b88ca, 0x000b9991, 0x000baa58, 0x000bbb1f, 0x000bcbe6, 0x000bdcad, 0x000bed74, 0x000bfe3b,
    0x000c0f02, 0x000c1fc9, 0x000c3090, 0x000c4157, 0x000c521e, 0x000c62e5, 0x000c73ac, 0x000c8473]
  const USTOTSLO_12: seq<int> := [
    0x000c953a, 0x000ca601, 0x000cb6c8, 0x000cc78f, 0x000cd856, 0x000ce91d, 0x000cf9e4, 0x000d0aaa,
    0x000d1b71, 0x000d2c38, 0x000d3cff, 0x000d4dc6, 0x000d5e8d, 0x000d6f54, 0x000d801b, 0x000d90e2]
  const USTOTSLO_13: seq<int> := [
    0x000da1a9, 0x000db270, 0x000dc337, 0x000dd3fe, 0x000de4c5, 0x000df58c, 0x000e0653, 0x000e171a,
    0x000e27e1, 0x000e38a8, 0x000e496f, 0x000e5a36, 0x000e6afd, 0x000e7bc4, 0x000e8c8b, 0x000e9d52]
  const USTOTSLO_14: seq<int> := [
    0x000eae19, 0x000ebee0, 0x000ecfa7, 0x000ee06e, 0x000ef135, 0x000f01fb, 0x000f12c2, 0x000f2389,
    0x000f3450, 0x000f4517, 0x000f55de, 0x000f66a5, 0x000f776c, 0x000f8833, 0x000f98fa, 0x000fa9c1]
  const USTOTSLO_15: seq<int> := [
    0x000fba88, 0x000fcb4f, 0x000fdc16, 0x000fecdd, 0x000ffda4, 0x00100e6b, 0x00101f32, 0x00102ff9,
    0x001040c0, 0x00105187, 0x0010624e, 0x00107315, 0x001083dc, 0x001094a3, 0x0010a56a, 0x0010b631]

  /** 2^32 / 10^6 units for each microsecond, to the nearest. */
  const USTOTSLO: seq<seq<int>> := [
    USTOTSLO_0, USTOTSLO_1, USTOTSLO_2, USTOTSLO_3, USTOTSLO_4, USTOTSLO_5, USTOTSLO_6, USTOTSLO_7,
    USTOTSLO_8, USTOTSLO_9, USTOTSLO_10, USTOTSLO_11, USTOTSLO_12, USTOTSLO_13, USTOTSLO_14, USTOTSLO_15]

  lemma LoNear0to7()
    ensures Near(USTOTSLO_0, 0, 1000000, 0x1_0000_0000, -510784, 490560)
    ensures Near(USTOTSLO_1, 1, 1000000, 0x1_0000_0000, -510784, 490560)
    ensures Near(USTOTSLO_2, 2, 1000000, 0x1_0000_0000, -510784, 490560)
    ensures Near(USTOTSLO_3, 3, 1000000, 0x1_0000_0000, -510784, 490560)
    ensures Near(USTOTSLO_4, 4, 1000000, 0x1_0000_0000, -510784, 490560)
    ensures Near(USTOTSLO_5, 5, 1000000, 0x1_0000_0000, -510784, 490560)
    ensures Near(USTOTSLO_6, 6, 1000000, 0x1_0000_0000, -510784, 490560)
    ensures Near(USTOTSLO_7, 7, 1000000, 0x1_0000_0000, -510784, 490560)
  {
  }

  lemma LoNear8to15()
    ensures Near(USTOTSLO_8, 8, 1000000, 0x1_0000_0000, -510784, 490560)
    ensures Near(USTOTSLO_9, 9, 1000000, 0x1_0000_0000, -510784, 490560)
    ensures Near(USTOTSLO_10, 10, 1000000, 0x1_0000_0000, -510784, 490560)
    ensures Near(USTOTSLO_11, 11, 1000000, 0x1_0000_0000, -510784, 490560)
    ensures Near(USTOTSLO_12, 12, 1000000, 0x1_0000_0000, -510784, 490560)
    ensures Near(USTOTSLO_13, 13, 1000000, 0x1_0000_0000, -510784, 490560)
    ensures Near(USTOTSLO_14, 14, 1000000, 0x1_0000_0000, -510784, 490560)
    ensures Near(USTOTSLO_15, 15, 1000000, 0x1_0000_0000, -510784, 490560)
  {
  }

  lemma LoNear(r: nat)
    requires r < 16
    ensures |USTOTSLO| == 16
    ensures Near(USTOTSLO[r], r, 1000000, 0x1_0000_0000, -510784, 490560)
  {
    LoNear0to7();
    LoNear8to15();
    if r < 8 { } else { }
  }

  // ---------- ustotsmid ----------

  const USTOTSMID_0: seq<int> := [
    0x00000000, 0x0010c6f8, 0x00218def, 0x003254e7, 0x00431bde, 0x0053e2d6, 0x0064a9ce, 0x007570c5,
    0x008637bd, 0x0096feb4, 0x00a7c5ac, 0x00b88ca4, 0x00c9539b, 0x00da1a93, 0x00eae18a, 0x00fba882]
  const USTOTSMID_1: seq<int> := [
    0x010c6f7a, 0x011d3671, 0x012dfd69, 0x013ec460, 0x014f8b58, 0x01605250, 0x01711947, 0x0181e03f,
    0x0192a736, 0x01a36e2e, 0x01b43526, 0x01c4fc1d, 0x01d5c315, 0x01e68a0c, 0x01f75104, 0x020817fc]
  const USTOTSMID_2: seq<int> := [
    0x0218def3, 0x0229a5eb, 0x023a6ce3, 0x024b33da, 0x025bfad2, 0x026cc1c9, 0x027d88c1, 0x028e4fb9,
    0x029f16b0, 0x02afdda8, 0x02c0a49f, 0x02d16b97, 0x02e2328f, 0x02f2f986, 0x0303c07e, 0x03148775]
  const USTOTSMID_3: seq<int> := [
    0x03254e6d, 0x03361565, 0x0346dc5c, 0x0357a354, 0x03686a4b, 0x03793143, 0x0389f83b, 0x039abf32,
    0x03ab862a, 0x03bc4d21, 0x03cd1419, 0x03dddb11, 0x03eea208, 0x03ff6900, 0x04102ff7, 0x0420f6ef]
  const USTOTSMID_4: seq<int> := [
    0x0431bde7, 0x044284de, 0x04534bd6, 0x046412cd, 0x0474d9c5, 0x0485a0bd, 0x049667b4, 0x04a72eac,
    0x04b7f5a3, 0x04c8bc9b, 0x04d98393, 0x04ea4a8a, 0x04fb1182, 0x050bd879, 0x051c9f71, 0x052d6669]
  const USTOTSMID_5: seq<int> := [
    0x053e2d60, 0x054ef458, 0x055fbb4f, 0x05708247, 0x0581493f, 0x05921036, 0x05a2d72e, 0x05b39e25,
    0x05c4651d, 0x05d52c15, 0x05e5f30c, 0x05f6ba04, 0x060780fb, 0x061847f3, 0x06290eeb, 0x0639d5e2]
  const USTOTSMID_6: seq<int> := [
    0x064a9cda, 0x065b63d2, 0x066c2ac9, 0x067cf1c1, 0x068db8b8, 0x069e7fb0, 0x06af46a8, 0x06c00d9f,
    0x06d0d497, 0x06e19b8e, 0x06f26286, 0x0703297e, 0x0713f075, 0x0724b76d, 0x07357e64, 0x0746455c]
  const USTOTSMID_7: seq<int> := [
    0x07570c54, 0x0767d34b, 0x07789a43, 0x0789613a, 0x079a2832, 0x07aaef2a, 0x07bbb621, 0x07cc7d19,
    0x07dd4410, 0x07ee0b08, 0x07fed200, 0x080f98f7, 0x08205fef, 0x083126e6, 0x0841edde, 0x0852b4d6]
  const USTOTSMID_8: seq<int> := [
    0x08637bcd, 0x087442c5, 0x088509bc, 0x0895d0b4, 0x08a697ac, 0x08b75ea3, 0x08c8259b, 0x08d8ec92,
    0x08e9b38a, 0x08fa7a82, 0x090b4179, 0x091c0871, 0x092ccf68, 0x093d9660, 0x094e5d58, 0x095f244f]
  const USTOTSMID_9: seq<int> := [
    0x096feb47, 0x0980b23e, 0x09917936, 0x09a2402e, 0x09b30725, 0x09c3ce1d, 0x09d49514, 0x09e55c0c,
    0x09f62304, 0x0a06e9fb, 0x0a17b0f3, 0x0a2877ea, 0x0a393ee2, 0x0a4a05da, 0x0a5accd1, 0x0a6b93c9]
  const USTOTSMID_10: seq<int> := [
    0x0a7c5ac1, 0x0a8d21b8, 0x0a9de8b0, 0x0aaeafa7, 0x0abf769f, 0x0ad03d97, 0x0ae1048e, 0x0af1cb86,
    0x0b02927d, 0x0b135975, 0x0b24206d, 0x0b34e764, 0x0b45ae5c, 0x0b567553, 0x0b673c4b, 0x0b780343]
  const USTOTSMID_11: seq<int> := [
    0x0b88ca3a, 0x0b999132, 0x0baa5829, 0x0bbb1f21, 0x0bcbe619, 0x0bdcad10, 0x0bed7408, 0x0bfe3aff,
    0x0c0f01f7, 0x0c1fc8ef, 0x0c308fe6, 0x0c4156de, 0x0c521dd5, 0x0c62e4cd, 0x0c73abc5, 0x0c8472bc]
  const USTOTSMID_12: seq<int> := [
    0x0c9539b4, 0x0ca600ab, 0x0cb6c7a3, 0x0cc78e9b, 0x0cd85592, 0x0ce91c8a, 0x0cf9e381, 0x0d0aaa79,
    0x0d1b7171, 0x0d2c3868, 0x0d3cff60, 0x0d4dc657, 0x0d5e8d4f, 0x0d6f5447, 0x0d801b3e, 0x0d90e236]
  const USTOTSMID_13: seq<int> := [
    0x0da1a92d, 0x0db27025, 0x0dc3371d, 0x0dd3fe14, 0x0de4c50c, 0x0df58c03, 0x0e0652fb, 0x0e1719f3,
    0x0e27e0ea, 0x0e38a7e2, 0x0e496ed9, 0x0e5a35d1, 0x0e6afcc9, 0x0e7bc3c0, 0x0e8c8ab8, 0x0e9d51b0]
  const USTOTSMID_14: seq<int> := [
    0x0eae18a7, 0x0ebedf9f, 0x0ecfa696, 0x0ee06d8e, 0x0ef13486, 0x0f01fb7d, 0x0f12c275, 0x0f23896c,
    0x0f345064, 0x0f45175c, 0x0f55de53, 0x0f66a54b, 0x0f776c42, 0x0f88333a, 0x0f98fa32, 0x0fa9c129]
  const USTOTSMID_15: seq<int> := [
    0x0fba8821, 0x0fcb4f18, 0x0fdc1610, 0x0fecdd08, 0x0ffda3ff, 0x100e6af7, 0x101f31ee, 0x102ff8e6,
    0x1040bfde, 0x105186d5, 0x10624dcd, 0x107314c4, 0x1083dbbc, 0x1094a2b4, 0x10a569ab, 0x10b630a3]

  /** The same for each 256 microseconds; the entries drift downwards. */
  const USTOTSMID: seq<seq<int>> := [
    USTOTSMID_0, USTOTSMID_1, USTOTSMID_2, USTOTSMID_3, USTOTSMID_4, USTOTSMID_5, USTOTSMID_6, USTOTSMID_7,
    USTOTSMID_8, USTOTSMID_9, USTOTSMID_10, USTOTSMID_11, USTOTSMID_12, USTOTSMID_13, USTOTSMID_14, USTOTSMID_15]

  lemma MidNear0to7()
    ensures Near(USTOTSMID_0, 0, 1000000, 0x100_0000_0000, -788864, 372224)
    ensures Near(USTOTSMID_1, 1, 1000000, 0x100_0000_0000, -3055360, -44416)
    ensures Near(USTOTSMID_2, 2, 1000000, 0x100_0000_0000, -3055360, -44416)
    ensures Near(USTOTSMID_3, 3, 1000000, 0x100_0000_0000, -3055360, -44416)
    ensures Near(USTOTSMID_4, 4, 1000000, 0x100_0000_0000, -3055360, -44416)
    ensures Near(USTOTSMID_5, 5, 1000000, 0x100_0000_0000, -3055360, -44416)
    ensures Near(USTOTSMID_6, 6, 1000000, 0x100_0000_0000, -3055360, -44416)
    ensures Near(USTOTSMID_7, 7, 1000000, 0x100_0000_0000, -6571776, -2310912)
  {
  }

  lemma MidNear8to15()
    ensures Near(USTOTSMID_8, 8, 1000000, 0x100_0000_0000, -6571776, -2310912)
    ensures Near(USTOTSMID_9, 9, 1000000, 0x100_0000_0000, -6571776, -2310912)
    ensures Near(USTOTSMID_10, 10, 1000000, 0x100_0000_0000, -6571776, -2310912)
    ensures Near(USTOTSMID_11, 11, 1000000, 0x100_0000_0000, -6571776, -2310912)
    ensures Near(USTOTSMID_12, 12, 1000000, 0x100_0000_0000, -6571776, -2310912)
    ensures Near(USTOTSMID_13, 13, 1000000, 0x100_0000_0000, -6571776, -2310912)
    ensures Near(USTOTSMID_14, 14, 1000000, 0x100_0000_0000, -6571776, -2310912)
    ensures Near(USTOTSMID_15, 15, 1000000, 0x100_0000_0000, -6571776, -2310912)
  {
  }

  lemma MidNear(r: nat)
    requires r < 16
    ensures |USTOTSMID| == 16
    ensures r < 1 ==> Near(USTOTSMID[r], r, 1000000, 0x100_0000_0000, -788864, 372224)
    ensures 1 <= r < 7 ==> Near(USTOTSMID[r], r, 1000000, 0x100_0000_0000, -3055360, -44416)
    ensures r >= 7 ==> Near(USTOTSMID[r], r, 1000000, 0x100_0000_0000, -6571776, -2310912)
  {
    MidNear0to7();
    MidNear8to15();
    if r < 8 { } else { }
  }

  /** Where the drift of the middle table begins to matter, and where it no longer leaves room. */
  lemma MidEdges(k: nat)
    requires k < 16
    ensures |USTOTSMID| == 16 && |USTOTSMID[1]| == 16 && |USTOTSMID[6]| == 16
    ensures k < 8 ==> -927744 <= USTOTSMID[1][k] * 1000000 - (16 + k) * 0x100_0000_0000
    ensures USTOTSMID[1][8] * 1000000 - 24 * 0x100_0000_0000 == -1066624
    ensures USTOTSMID[6][1] * 1000000 - 97 * 0x100_0000_0000 == -1894272
    ensures k >= 2 ==> USTOTSMID[6][k] * 1000000 - (96 + k) * 0x100_0000_0000 <= -2033152
  {
    assert USTOTSMID[1] == USTOTSMID_1 && USTOTSMID[6] == USTOTSMID_6;
  }

  /** The entries of the low table that stand beside those. */
  lemma LoEdges(k: nat)
    requires k < 16
    ensures |USTOTSLO| == 16 && |USTOTSLO[0]| == |USTOTSLO[1]| == |USTOTSLO[14]| == |USTOTSLO[15]| == 16
    ensures USTOTSLO[0][k] * 1000000 >= k * 0x1_0000_0000
    ensures USTOTSLO[1][0] * 1000000 - 16 * 0x1_0000_0000 == -476736
    ensures USTOTSLO[14][4] * 1000000 - 228 * 0x1_0000_0000 == 456512
    ensures k > 4 ==> USTOTSLO[14][k] * 1000000 - (224 + k) * 0x1_0000_0000 <= 339520
    ensures USTOTSLO[15][k] * 1000000 - (240 + k) * 0x1_0000_0000 <= 339520
  {
    assert USTOTSLO[0] == USTOTSLO_0 && USTOTSLO[1] == USTOTSLO_1;
    assert USTOTSLO[14] == USTOTSLO_14 && USTOTSLO[15] == USTOTSLO_15;
  }

  // ---------- ustotshi ----------

  /** The same for each 65536 microseconds. */
  const USTOTSHI: seq<int> := [
    0x00000000, 0x10c6f79a, 0x218def35, 0x3254e6cf, 0x431bde6a, 0x53e2d604, 0x64a9cd9f, 0x7570c539,
    0x8637bcd3, 0x96feb46e, 0xa7c5ac08, 0xb88ca3a3, 0xc9539b3d, 0xda1a92d7, 0xeae18a72, 0xfba8820c]

  lemma HiNear()
    ensures Near(USTOTSHI, 0, 1000000, 0x1_0000_0000_0000, -94659840, 0) && USTOTSHI[0] == 0
    ensures forall k :: 1 <= k < 16 ==> USTOTSHI[k] * 1000000 - k * 0x1_0000_0000_0000 <= -6710656
  {
  }

  // ---------- tstoushi ----------

  const TSTOUSHI_0: seq<int> := [
    0x000000, 0x007a12, 0x00f424, 0x016e36, 0x01e848, 0x02625a, 0x02dc6c, 0x03567e,
    0x03d090, 0x044aa2, 0x04c4b4, 0x053ec6, 0x05b8d8, 0x0632ea, 0x06acfc, 0x07270e]
  const TSTOUSHI_1: seq<int> := [
    0x07a120, 0x081b32, 0x089544, 0x090f56, 0x098968, 0x0a037a, 0x0a7d8c, 0x0af79e,
    0x0b71b0, 0x0bebc2, 0x0c65d4, 0x0cdfe6, 0x0d59f8, 0x0dd40a, 0x0e4e1c, 0x0ec82e]
  const TSTOUSHI_2: seq<int> := [
    0x0f4240, 0x0fbc52, 0x103664, 0x10b076, 0x112a88, 0x11a49a, 0x121eac, 0x1298be,
    0x1312d0, 0x138ce2, 0x1406f4, 0x148106, 0x14fb18, 0x15752a, 0x15ef3c, 0x16694e]
  const TSTOUSHI_3: seq<int> := [
    0x16e360, 0x175d72, 0x17d784, 0x185196, 0x18cba8, 0x1945ba, 0x19bfcc, 0x1a39de,
    0x1ab3f0, 0x1b2e02, 0x1ba814, 0x1c2226, 0x1c9c38, 0x1d164a, 0x1d905c, 0x1e0a6e]
  const TSTOUSHI_4: seq<int> := [
    0x1e8480, 0x1efe92, 0x1f78a4, 0x1ff2b6, 0x206cc8, 0x20e6da, 0x2160ec, 0x21dafe,
    0x225510, 0x22cf22, 0x234934, 0x23c346, 0x243d58, 0x24b76a, 0x25317c, 0x25ab8e]
  const TSTOUSHI_5: seq<int> := [
    0x2625a0, 0x269fb2, 0x2719c4, 0x2793d6, 0x280de8, 0x2887fa, 0x29020c, 0x297c1e,
    0x29f630, 0x2a7042, 0x2aea54, 0x2b6466, 0x2bde78, 0x2c588a, 0x2cd29c, 0x2d4cae]
  const TSTOUSHI_6: seq<int> := [
    0x2dc6c0, 0x2e40d2, 0x2ebae4, 0x2f34f6, 0x2faf08, 0x30291a, 0x30a32c, 0x311d3e,
    0x319750, 0x321162, 0x328b74, 0x330586, 0x337f98, 0x33f9aa, 0x3473bc, 0x34edce]
  const TSTOUSHI_7: seq<int> := [
    0x3567e0, 0x35e1f2, 0x365c04, 0x36d616, 0x375028, 0x37ca3a, 0x38444c, 0x38be5e,
    0x393870, 0x39b282, 0x3a2c94, 0x3aa6a6, 0x3b20b8, 0x3b9aca, 0x3c14dc, 0x3c8eee]
  const TSTOUSHI_8: seq<int> := [
    0x3d0900, 0x3d8312, 0x3dfd24, 0x3e7736, 0x3ef148, 0x3f6b5a, 0x3fe56c, 0x405f7e,
    0x40d990, 0x4153a2, 0x41cdb4, 0x4247c6, 0x42c1d8, 0x433bea, 0x43b5fc, 0x44300e]
  const TSTOUSHI_9: seq<int> := [
    0x44aa20, 0x452432, 0x459e44, 0x461856, 0x469268, 0x470c7a, 0x47868c, 0x48009e,
    0x487ab0, 0x48f4c2, 0x496ed4, 0x49e8e6, 0x4a62f8, 0x4add0a, 0x4b571c, 0x4bd12e]
  const TSTOUSHI_10: seq<int> := [
    0x4c4b40, 0x4cc552, 0x4d3f64, 0x4db976, 0x4e3388, 0x4ead9a, 0x4f27ac, 0x4fa1be,
    0x501bd0, 0x5095e2, 0x510ff4, 0x518a06, 0x520418, 0x527e2a, 0x52f83c, 0x53724e]
  const TSTOUSHI_11: seq<int> := [
    0x53ec60, 0x546672, 0x54e084, 0x555a96, 0x55d4a8, 0x564eba, 0x56c8cc, 0x5742de,
    0x57bcf0, 0x583702, 0x58b114, 0x592b26, 0x59a538, 0x5a1f4a, 0x5a995c, 0x5b136e]
  const TSTOUSHI_12: seq<int> := [
    0x5b8d80, 0x5c0792, 0x5c81a4, 0x5cfbb6, 0x5d75c8, 0x5defda, 0x5e69ec, 0x5ee3fe,
    0x5f5e10, 0x5fd822, 0x605234, 0x60cc46, 0x614658, 0x61c06a, 0x623a7c, 0x62b48e]
  const TSTOUSHI_13: seq<int> := [
    0x632ea0, 0x63a8b2, 0x6422c4, 0x649cd6, 0x6516e8, 0x6590fa, 0x660b0c, 0x66851e,
    0x66ff30, 0x677942, 0x67f354, 0x686d66, 0x68e778, 0x69618a, 0x69db9c, 0x6a55ae]
  const TSTOUSHI_14: seq<int> := [
    0x6acfc0, 0x6b49d2, 0x6bc3e4, 0x6c3df6, 0x6cb808, 0x6d321a, 0x6dac2c, 0x6e263e,
    0x6ea050, 0x6f1a62, 0x6f9474, 0x700e86, 0x708898, 0x7102aa, 0x717cbc, 0x71f6ce]
  const TSTOUSHI_15: seq<int> := [
    0x7270e0, 0x72eaf2, 0x736504, 0x73df16, 0x745928, 0x74d33a, 0x754d4c, 0x75c75e,
    0x764170, 0x76bb82, 0x773594, 0x77afa6, 0x7829b8, 0x78a3ca, 0x791ddc, 0x7997ee]

  /** Eighths of a microsecond for the top byte of a fraction, exactly. */
  const TSTOUSHI: seq<seq<int>> := [
    TSTOUSHI_0, TSTOUSHI_1, TSTOUSHI_2, TSTOUSHI_3, TSTOUSHI_4, TSTOUSHI_5, TSTOUSHI_6, TSTOUSHI_7,
    TSTOUSHI_8, TSTOUSHI_9, TSTOUSHI_10, TSTOUSHI_11, TSTOUSHI_12, TSTOUSHI_13, TSTOUSHI_14, TSTOUSHI_15]

  lemma BackHiNear0to7()
    ensures Near(TSTOUSHI_0, 0, 1, 31250, 0, 0)
    ensures Near(TSTOUSHI_1, 1, 1, 31250, 0, 0)
    ensures Near(TSTOUSHI_2, 2, 1, 31250, 0, 0)
    ensures Near(TSTOUSHI_3, 3, 1, 31250, 0, 0)
    ensures Near(TSTOUSHI_4, 4, 1, 31250, 0, 0)
    ensures Near(TSTOUSHI_5, 5, 1, 31250, 0, 0)
    ensures Near(TSTOUSHI_6, 6, 1, 31250, 0, 0)
    ensures Near(TSTOUSHI_7, 7, 1, 31250, 0, 0)
  {
  }

  lemma BackHiNear8to15()
    ensures Near(TSTOUSHI_8, 8, 1, 31250, 0, 0)
    ensures Near(TSTOUSHI_9, 9, 1, 31250, 0, 0)
    ensures Near(TSTOUSHI_10, 10, 1, 31250, 0, 0)
    ensures Near(TSTOUSHI_11, 11, 1, 31250, 0, 0)
    ensures Near(TSTOUSHI_12, 12, 1, 31250, 0, 0)
    ensures Near(TSTOUSHI_13, 13, 1, 31250, 0, 0)
    ensures Near(TSTOUSHI_14, 14, 1, 31250, 0, 0)
    ensures Near(TSTOUSHI_15, 15, 1, 31250, 0, 0)
  {
  }

  lemma BackHiNear(r: nat)
    requires r < 16
    ensures |TSTOUSHI| == 16
    ensures Near(TSTOUSHI[r], r, 1, 31250, 0, 0)
  {
    BackHiNear0to7();
    BackHiNear8to15();
    if r < 8 { } else { }
  }

  // ---------- tstousmid ----------

  const TSTOUSMID_0: seq<int> := [
    0x0000, 0x007a, 0x00f4, 0x016e, 0x01e8, 0x0262, 0x02dc, 0x0356,
    0x03d1, 0x044b, 0x04c5, 0x053f, 0x05b9, 0x0633, 0x06ad, 0x0727]
  const TSTOUSMID_1: seq<int> := [
    0x07a1, 0x081b, 0x0895, 0x090f, 0x0989, 0x0a03, 0x0a7e, 0x0af8,
    0x0b72, 0x0bec, 0x0c66, 0x0ce0, 0x0d5a, 0x0dd4, 0x0e4e, 0x0ec8]
  const TSTOUSMID_2: seq<int> := [
    0x0f42, 0x0fbc, 0x1036, 0x10b0, 0x112b, 0x11a5, 0x121f, 0x1299,
    0x1313, 0x138d, 0x1407, 0x1481, 0x14fb, 0x1575, 0x15ef, 0x1669]
  const TSTOUSMID_3: seq<int> := [
    0x16e3, 0x175d, 0x17d8, 0x1852, 0x18cc, 0x1946, 0x19c0, 0x1a3a,
    0x1ab4, 0x1b2e, 0x1ba8, 0x1c22, 0x1c9c, 0x1d16, 0x1d90, 0x1e0a]
  const TSTOUSMID_4: seq<int> := [
    0x1e84, 0x1eff, 0x1f79, 0x1ff3, 0x206d, 0x20e7, 0x2161, 0x21db,
    0x2255, 0x22cf, 0x2349, 0x23c3, 0x243d, 0x24b7, 0x2531, 0x25ac]
  const TSTOUSMID_5: seq<int> := [
    0x2626, 0x26a0, 0x271a, 0x2794, 0x280e, 0x2888, 0x2902, 0x297c,
    0x29f6, 0x2a70, 0x2aea, 0x2b64, 0x2bde, 0x2c59, 0x2cd3, 0x2d4d]
  const TSTOUSMID_6: seq<int> := [
    0x2dc7, 0x2e41, 0x2ebb, 0x2f35, 0x2faf, 0x3029, 0x30a3, 0x311d,
    0x3197, 0x3211, 0x328b, 0x3306, 0x3380, 0x33fa, 0x3474, 0x34ee]
  const TSTOUSMID_7: seq<int> := [
    0x3568, 0x35e2, 0x365c, 0x36d6, 0x3750, 0x37ca, 0x3844, 0x38be,
    0x3938, 0x39b3, 0x3a2d, 0x3aa7, 0x3b21, 0x3b9b, 0x3c15, 0x3c8f]
  const TSTOUSMID_8: seq<int> := [
    0x3d09, 0x3d83, 0x3dfd, 0x3e77, 0x3ef1, 0x3f6b, 0x3fe5, 0x405f,
    0x40da, 0x4154, 0x41ce, 0x4248, 0x42c2, 0x433c, 0x43b6, 0x4430]
  const TSTOUSMID_9: seq<int> := [
    0x44aa, 0x4524, 0x459e, 0x4618, 0x4692, 0x470c, 0x4787, 0x4801,
    0x487b, 0x48f5, 0x496f, 0x49e9, 0x4a63, 0x4add, 0x4b57, 0x4bd1]
  const TSTOUSMID_10: seq<int> := [
    0x4c4b, 0x4cc5, 0x4d3f, 0x4db9, 0x4e34, 0x4eae, 0x4f28, 0x4fa2,
    0x501c, 0x5096, 0x5110, 0x518a, 0x5204, 0x527e, 0x52f8, 0x5372]
  const TSTOUSMID_11: seq<int> := [
    0x53ec, 0x5466, 0x54e1, 0x555b, 0x55d5, 0x564f, 0x56c9, 0x5743,
    0x57bd, 0x5837, 0x58b1, 0x592b, 0x59a5, 0x5a1f, 0x5a99, 0x5b13]
  const TSTOUSMID_12: seq<int> := [
    0x5b8d, 0x5c08, 0x5c82, 0x5cfc, 0x5d76, 0x5df0, 0x5e6a, 0x5ee4,
    0x5f5e, 0x5fd8, 0x6052, 0x60cc, 0x6146, 0x61c0, 0x623a, 0x62b5]
  const TSTOUSMID_13: seq<int> := [
    0x632f, 0x63a9, 0x6423, 0x649d, 0x6517, 0x6591, 0x660b, 0x6685,
    0x66ff, 0x6779, 0x67f3, 0x686d, 0x68e7, 0x6962, 0x69dc, 0x6a56]
  const TSTOUSMID_14: seq<int> := [
    0x6ad0, 0x6b4a, 0x6bc4, 0x6c3e, 0x6cb8, 0x6d32, 0x6dac, 0x6e26,
    0x6ea0, 0x6f1a, 0x6f94, 0x700f, 0x7089, 0x7103, 0x717d, 0x71f7]
  const TSTOUSMID_15: seq<int> := [
    0x7271, 0x72eb, 0x7365, 0x73df, 0x7459, 0x74d3, 0x754d, 0x75c7,
    0x7641, 0x76bc, 0x7736, 0x77b0, 0x782a, 0x78a4, 0x791e, 0x7998]

  /** The same for the next byte, to the nearest. */
  const TSTOUSMID: seq<seq<int>> := [
    TSTOUSMID_0, TSTOUSMID_1, TSTOUSMID_2, TSTOUSMID_3, TSTOUSMID_4, TSTOUSMID_5, TSTOUSMID_6, TSTOUSMID_7,
    TSTOUSMID_8, TSTOUSMID_9, TSTOUSMID_10, TSTOUSMID_11, TSTOUSMID_12, TSTOUSMID_13, TSTOUSMID_14, TSTOUSMID_15]

  lemma BackMidNear0to7()
    ensures Near(TSTOUSMID_0, 0, 0x1_0000, 8000000, -32768, 32256)
    ensures Near(TSTOUSMID_1, 1, 0x1_0000, 8000000, -32768, 32256)
    ensures Near(TSTOUSMID_2, 2, 0x1_0000, 8000000, -32768, 32256)
    ensures Near(TSTOUSMID_3, 3, 0x1_0000, 8000000, -32768, 32256)
    ensures Near(TSTOUSMID_4, 4, 0x1_0000, 8000000, -32768, 32256)
    ensures Near(TSTOUSMID_5, 5, 0x1_0000, 8000000, -32768, 32256)
    ensures Near(TSTOUSMID_6, 6, 0x1_0000, 8000000, -32768, 32256)
    ensures Near(TSTOUSMID_7, 7, 0x1_0000, 8000000, -32768, 32256)
  {
  }

  lemma BackMidNear8to15()
    ensures Near(TSTOUSMID_8, 8, 0x1_0000, 8000000, -32768, 32256)
    ensures Near(TSTOUSMID_9, 9, 0x1_0000, 8000000, -32768, 32256)
    ensures Near(TSTOUSMID_10, 10, 0x1_0000, 8000000, -32768, 32256)
    ensures Near(TSTOUSMID_11, 11, 0x1_0000, 8000000, -32768, 32256)
    ensures Near(TSTOUSMID_12, 12, 0x1_0000, 8000000, -32768, 32256)
    ensures Near(TSTOUSMID_13, 13, 0x1_0000, 8000000, -32768, 32256)
    ensures Near(TSTOUSMID_14, 14, 0x1_0000, 8000000, -32768, 32256)
    ensures Near(TSTOUSMID_15, 15, 0x1_0000, 8000000, -32768, 32256)
  {
  }

  lemma BackMidNear(r: nat)
    requires r < 16
    ensures |TSTOUSMID| == 16
    ensures Near(TSTOUSMID[r], r, 0x1_0000, 8000000, -32768, 32256)
  {
    BackMidNear0to7();
    BackMidNear8to15();
    if r < 8 { } else { }
  }

  // ---------- tstouslo ----------

  const TSTOUSLO_0: seq<int> := [
    0x00, 0x01, 0x02, 0x03, 0x04, 0x05, 0x06, 0x07,
    0x08, 0x09, 0x0a, 0x0a, 0x0b, 0x0c, 0x0d, 0x0e]
  const TSTOUSLO_1: seq<int> := [
    0x0f, 0x10, 0x11, 0x12, 0x13, 0x14, 0x15, 0x16,
    0x17, 0x18, 0x19, 0x1a, 0x1b, 0x1c, 0x1d, 0x1e]
  const TSTOUSLO_2: seq<int> := [
    0x1f, 0x1f, 0x20, 0x21, 0x22, 0x23, 0x24, 0x25,
    0x26, 0x27, 0x28, 0x29, 0x2a, 0x2b, 0x2c, 0x2d]
  const TSTOUSLO_3: seq<int> := [
    0x2e, 0x2f, 0x30, 0x31, 0x32, 0x33, 0x33, 0x34,
    0x35, 0x36, 0x37, 0x38, 0x39, 0x3a, 0x3b, 0x3c]
  const TSTOUSLO_4: seq<int> := [
    0x3d, 0x3e, 0x3f, 0x40, 0x41, 0x42, 0x43, 0x44,
    0x45, 0x46, 0x47, 0x48, 0x48, 0x49, 0x4a, 0x4b]
  const TSTOUSLO_5: seq<int> := [
    0x4c, 0x4d, 0x4e, 0x4f, 0x50, 0x51, 0x52, 0x53,
    0x54, 0x55, 0x56, 0x57, 0x58, 0x59, 0x5a, 0x5b]
  const TSTOUSLO_6: seq<int> := [
    0x5c, 0x5c, 0x5d, 0x5e, 0x5f, 0x60, 0x61, 0x62,
    0x63, 0x64, 0x65, 0x66, 0x67, 0x68, 0x69, 0x6a]
  const TSTOUSLO_7: seq<int> := [
    0x6b, 0x6c, 0x6d, 0x6e, 0x6f, 0x70, 0x71, 0x71,
    0x72, 0x73, 0x74, 0x75, 0x76, 0x77, 0x78, 0x79]

  /** The same for the next seven bits. */
  const TSTOUSLO: seq<seq<int>> := [
    TSTOUSLO_0, TSTOUSLO_1, TSTOUSLO_2, TSTOUSLO_3, TSTOUSLO_4, TSTOUSLO_5, TSTOUSLO_6, TSTOUSLO_7]

  lemma BackLoNear0to7()
    ensures Near(TSTOUSLO_0, 0, 0x80_0000, 8000000, -4248064, 4046848)
    ensures Near(TSTOUSLO_1, 1, 0x80_0000, 8000000, -4248064, 4046848)
    ensures Near(TSTOUSLO_2, 2, 0x80_0000, 8000000, -4248064, 4046848)
    ensures Near(TSTOUSLO_3, 3, 0x80_0000, 8000000, -4248064, 4046848)
    ensures Near(TSTOUSLO_4, 4, 0x80_0000, 8000000, -4248064, 4046848)
    ensures Near(TSTOUSLO_5, 5, 0x80_0000, 8000000, -4248064, 4046848)
    ensures Near(TSTOUSLO_6, 6, 0x80_0000, 8000000, -4248064, 4046848)
    ensures Near(TSTOUSLO_7, 7, 0x80_0000, 8000000, -4248064, 4046848)
  {
  }

  lemma BackLoNear(r: nat)
    requires r < 8
    ensures |TSTOUSLO| == 8
    ensures Near(TSTOUSLO[r], r, 0x80_0000, 8000000, -4248064, 4046848)
  {
    BackLoNear0to7();
  }
}
