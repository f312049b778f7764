/** Versions, error correction levels and the tables of constants of the encoder. */
module QrTables {

  predicate ValidVersion(version: int) { 1 <= version <= 40 }

  /** Error correction levels, from low to high. */
  datatype Ecc = Low | Medium | Quartile | High

  function Rank(ecl: Ecc): nat
  {
    match ecl
    case Low => 0
    case Medium => 1
    case Quartile => 2
    case High => 3
  }

  /** One entry for each error correction level. */
  datatype PerLevel = PerLevel(low: nat, medium: nat, quartile: nat, high: nat)

  function At(p: PerLevel, ecl: Ecc): nat
  {
    match ecl
    case Low => p.low
    case Medium => p.medium
    case Quartile => p.quartile
    case High => p.high
  }

  /** A column of the two tables: the number of codewords of a version, the error correction
      codewords in a block, and the number of blocks. */
  datatype Column = Column(raw: nat, ecc: PerLevel, blocks: PerLevel)

  /** A block has room for data besides its `ecc` codewords, and holds fewer than 255 bytes. */
  predicate Sizes(raw: nat, ecc: nat, blocks: nat)
  {
    7 <= ecc <= 30 && 1 <= blocks && (ecc + 1) * blocks <= raw < 254 * blocks
  }

  predicate Sound(c: Column)
  {
    && Sizes(c.raw, c.ecc.low, c.blocks.low) && Sizes(c.raw, c.ecc.medium, c.blocks.medium)
    && Sizes(c.raw, c.ecc.quartile, c.blocks.quartile) && Sizes(c.raw, c.ecc.high, c.blocks.high)
  }

  function TableColumn(version: nat): (c: Column)
    requires ValidVersion(version)
    ensures Sound(c)
  {
    if version <= 20 then ColumnTo20(version) else ColumnFrom21(version)
  }

  function ColumnTo20(version: nat): (c: Column)
    requires 1 <= version <= 20
    ensures Sound(c)
  {
    match version
    case 1 => Column(26, PerLevel(7, 10, 13, 17), PerLevel(1, 1, 1, 1))
    case 2 => Column(44, PerLevel(10, 16, 22, 28), PerLevel(1, 1, 1, 1))
    case 3 => Column(70, PerLevel(15, 26, 18, 22), PerLevel(1, 1, 2, 2))
    case 4 => Column(100, PerLevel(20, 18, 26, 16), PerLevel(1, 2, 2, 4))
    case 5 => Column(134, PerLevel(26, 24, 18, 22), PerLevel(1, 2, 4, 4))
    case 6 => Column(172, PerLevel(18, 16, 24, 28), PerLevel(2, 4, 4, 4))
    case 7 => Column(196, PerLevel(20, 18, 18, 26), PerLevel(2, 4, 6, 5))
    case 8 => Column(242, PerLevel(24, 22, 22, 26), PerLevel(2, 4, 6, 6))
    case 9 => Column(292, PerLevel(30, 22, 20, 24), PerLevel(2, 5, 8, 8))
    case 10 => Column(346, PerLevel(18, 26, 24, 28), PerLevel(4, 5, 8, 8))
    case 11 => Column(404, PerLevel(20, 30, 28, 24), PerLevel(4, 5, 8, 11))
    case 12 => Column(466, PerLevel(24, 22, 26, 28), PerLevel(4, 8, 10, 11))
    case 13 => Column(532, PerLevel(26, 22, 24, 22), PerLevel(4, 9, 12, 16))
    case 14 => Column(581, PerLevel(30, 24, 20, 24), PerLevel(4, 9, 16, 16))
    case 15 => Column(655, PerLevel(22, 24, 30, 24), PerLevel(6, 10, 12, 18))
    case 16 => Column(733, PerLevel(24, 28, 24, 30), PerLevel(6, 10, 17, 16))
    case 17 => Column(815, PerLevel(28, 28, 28, 28), PerLevel(6, 11, 16, 19))
    case 18 => Column(901, PerLevel(30, 26, 28, 28), PerLevel(6, 13, 18, 21))
    case 19 => Column(991, PerLevel(28, 26, 26, 26), PerLevel(7, 14, 21, 25))
    case _ => Column(1085, PerLevel(28, 26, 30, 28), PerLevel(8, 16, 20, 25))
  }

  function ColumnFrom21(version: nat): (c: Column)
    requires 21 <= version <= 40
    ensures Sound(c)
  {
    match version
    case 21 => Column(1156, PerLevel(28, 26, 28, 30), PerLevel(8, 17, 23, 25))
    case 22 => Column(1258, PerLevel(28, 28, 30, 24), PerLevel(9, 17, 23, 34))
    case 23 => Column(1364, PerLevel(30, 28, 30, 30), PerLevel(9, 18, 25, 30))
    case 24 => Column(1474, PerLevel(30, 28, 30, 30), PerLevel(10, 20, 27, 32))
    case 25 => Column(1588, PerLevel(26, 28, 30, 30), PerLevel(12, 21, 29, 35))
    case 26 => Column(1706, PerLevel(28, 28, 28, 30), PerLevel(12, 23, 34, 37))
    case 27 => Column(1828, PerLevel(30, 28, 30, 30), PerLevel(12, 25, 34, 40))
    case 28 => Column(1921, PerLevel(30, 28, 30, 30), PerLevel(13, 26, 35, 42))
    case 29 => Column(2051, PerLevel(30, 28, 30, 30), PerLevel(14, 28, 38, 45))
    case 30 => Column(2185, PerLevel(30, 28, 30, 30), PerLevel(15, 29, 40, 48))
    case 31 => Column(2323, PerLevel(30, 28, 30, 30), PerLevel(16, 31, 43, 51))
    case 32 => Column(2465, PerLevel(30, 28, 30, 30), PerLevel(17, 33, 45, 54))
    case 33 => Column(2611, PerLevel(30, 28, 30, 30), PerLevel(18, 35, 48, 57))
    case 34 => Column(2761, PerLevel(30, 28, 30, 30), PerLevel(19, 37, 51, 60))
    case 35 => Column(2876, PerLevel(30, 28, 30, 30), PerLevel(19, 38, 53, 63))
    case 36 => Column(3034, PerLevel(30, 28, 30, 30), PerLevel(20, 40, 56, 66))
    case 37 => Column(3196, PerLevel(30, 28, 30, 30), PerLevel(21, 43, 59, 70))
    case 38 => Column(3362, PerLevel(30, 28, 30, 30), PerLevel(22, 45, 62, 74))
    case 39 => Column(3532, PerLevel(30, 28, 30, 30), PerLevel(24, 47, 65, 77))
    case _ => Column(3706, PerLevel(30, 28, 30, 30), PerLevel(25, 49, 68, 81))
  }

  function BlockEccLen(version: nat, ecl: Ecc): nat
    requires ValidVersion(version)
  {
    At(TableColumn(version).ecc, ecl)
  }

  function NumBlocks(version: nat, ecl: Ecc): nat
    requires ValidVersion(version)
  {
    At(TableColumn(version).blocks, ecl)
  }

  /** Modules left for codewords and remainder bits once all function patterns are drawn. */
  function NumRawDataModules(version: nat): int
    requires ValidVersion(version)
  {
    var result := (16 * version + 128) * version + 64;
    if version >= 2 then
      var numAlign := version / 7 + 2;
      result - ((25 * numAlign - 10) * numAlign - 55) - (if version >= 7 then 36 else 0)
    else
      result
  }

  lemma {:induction false} RawModules10(version: nat)
    requires 1 <= version <= 10
    ensures 208 <= NumRawDataModules(version) <= 29648
    ensures NumRawDataModules(version) / 8 == ColumnTo20(version).raw
  {}

  lemma {:induction false} RawModules20(version: nat)
    requires 11 <= version <= 20
    ensures 208 <= NumRawDataModules(version) <= 29648
    ensures NumRawDataModules(version) / 8 == ColumnTo20(version).raw
  {}

  lemma {:induction false} RawModules30(version: nat)
    requires 21 <= version <= 30
    ensures 208 <= NumRawDataModules(version) <= 29648
    ensures NumRawDataModules(version) / 8 == ColumnFrom21(version).raw
  {}

  lemma {:induction false} RawModules40(version: nat)
    requires 31 <= version <= 40
    ensures 208 <= NumRawDataModules(version) <= 29648
    ensures NumRawDataModules(version) / 8 == ColumnFrom21(version).raw
  {}

  lemma {:induction false} RawModulesRange(version: nat)
    requires ValidVersion(version)
    ensures 208 <= NumRawDataModules(version) <= 29648
    ensures NumRawDataModules(version) / 8 == TableColumn(version).raw
  {
    hide ColumnTo20, ColumnFrom21, NumRawDataModules;
    if version <= 10 {
      RawModules10(version);
    } else if version <= 20 {
      RawModules20(version);
    } else if version <= 30 {
      RawModules30(version);
    } else {
      RawModules40(version);
    }
  }

  function RawCodewords(version: nat): nat
    requires ValidVersion(version)
  {
    RawModulesRange(version);
    NumRawDataModules(version) / 8
  }

  /** What the block splitting and the error correction rely on, for all versions and levels. */
  lemma {:induction false} BlockSizes(version: nat, ecl: Ecc)
    requires ValidVersion(version)
    ensures Sizes(RawCodewords(version), BlockEccLen(version, ecl), NumBlocks(version, ecl))
  {
    hide TableColumn, NumRawDataModules;
    RawModulesRange(version);
  }

  lemma {:induction false} RoomForData(version: nat, ecl: Ecc)
    requires ValidVersion(version)
    ensures RawCodewords(version) - BlockEccLen(version, ecl) * NumBlocks(version, ecl) >= 1
  {
    hide TableColumn, RawCodewords, BlockEccLen, NumBlocks;
    BlockSizes(version, ecl);
    var e, b := BlockEccLen(version, ecl), NumBlocks(version, ecl);
    assert (e + 1) * b == e * b + b;
  }

  function NumDataCodewords(version: nat, ecl: Ecc): (n: nat)
    requires ValidVersion(version)
    ensures n >= 1
  {
    RoomForData(version, ecl);
    RawCodewords(version) - BlockEccLen(version, ecl) * NumBlocks(version, ecl)
  }

  // ---------- Capacities ----------

  /** The data codewords of a symbol (Table 7 of section 7.4.10). */
  function DataCapacity(version: nat): PerLevel
    requires ValidVersion(version)
  {
    if version <= 20 then CapacityTo20(version) else CapacityFrom21(version)
  }

  function CapacityTo20(version: nat): PerLevel
    requires 1 <= version <= 20
  {
    match version
    case 1 => PerLevel(19, 16, 13, 9)
    case 2 => PerLevel(34, 28, 22, 16)
    case 3 => PerLevel(55, 44, 34, 26)
    case 4 => PerLevel(80, 64, 48, 36)
    case 5 => PerLevel(108, 86, 62, 46)
    case 6 => PerLevel(136, 108, 76, 60)
    case 7 => PerLevel(156, 124, 88, 66)
    case 8 => PerLevel(194, 154, 110, 86)
    case 9 => PerLevel(232, 182, 132, 100)
    case 10 => PerLevel(274, 216, 154, 122)
    case 11 => PerLevel(324, 254, 180, 140)
    case 12 => PerLevel(370, 290, 206, 158)
    case 13 => PerLevel(428, 334, 244, 180)
    case 14 => PerLevel(461, 365, 261, 197)
    case 15 => PerLevel(523, 415, 295, 223)
    case 16 => PerLevel(589, 453, 325, 253)
    case 17 => PerLevel(647, 507, 367, 283)
    case 18 => PerLevel(721, 563, 397, 313)
    case 19 => PerLevel(795, 627, 445, 341)
    case _ => PerLevel(861, 669, 485, 385)
  }

  function CapacityFrom21(version: nat): PerLevel
    requires 21 <= version <= 40
  {
    match version
    case 21 => PerLevel(932, 714, 512, 406)
    case 22 => PerLevel(1006, 782, 568, 442)
    case 23 => PerLevel(1094, 860, 614, 464)
    case 24 => PerLevel(1174, 914, 664, 514)
    case 25 => PerLevel(1276, 1000, 718, 538)
    case 26 => PerLevel(1370, 1062, 754, 596)
    case 27 => PerLevel(1468, 1128, 808, 628)
    case 28 => PerLevel(1531, 1193, 871, 661)
    case 29 => PerLevel(1631, 1267, 911, 701)
    case 30 => PerLevel(1735, 1373, 985, 745)
    case 31 => PerLevel(1843, 1455, 1033, 793)
    case 32 => PerLevel(1955, 1541, 1115, 845)
    case 33 => PerLevel(2071, 1631, 1171, 901)
    case 34 => PerLevel(2191, 1725, 1231, 961)
    case 35 => PerLevel(2306, 1812, 1286, 986)
    case 36 => PerLevel(2434, 1914, 1354, 1054)
    case 37 => PerLevel(2566, 1992, 1426, 1096)
    case 38 => PerLevel(2702, 2102, 1502, 1142)
    case 39 => PerLevel(2812, 2216, 1582, 1222)
    case _ => PerLevel(2956, 2334, 1666, 1276)
  }

  lemma {:induction false} Capacity10(version: nat, ecl: Ecc)
    requires 1 <= version <= 10
    ensures NumDataCodewords(version, ecl) == At(CapacityTo20(version), ecl)
  {
    hide NumRawDataModules;
    RawModulesRange(version);
  }

  lemma {:induction false} Capacity20(version: nat, ecl: Ecc)
    requires 11 <= version <= 20
    ensures NumDataCodewords(version, ecl) == At(CapacityTo20(version), ecl)
  {
    hide NumRawDataModules;
    RawModulesRange(version);
  }

  lemma {:induction false} Capacity30(version: nat, ecl: Ecc)
    requires 21 <= version <= 30
    ensures NumDataCodewords(version, ecl) == At(CapacityFrom21(version), ecl)
  {
    hide NumRawDataModules;
    RawModulesRange(version);
  }

  lemma {:induction false} Capacity40(version: nat, ecl: Ecc)
    requires 31 <= version <= 40
    ensures NumDataCodewords(version, ecl) == At(CapacityFrom21(version), ecl)
  {
    hide NumRawDataModules;
    RawModulesRange(version);
  }

  /** What is left of the codewords after error correction is the capacity the standard gives. */
  lemma {:induction false} DataCapacityIs(version: nat, ecl: Ecc)
    requires ValidVersion(version)
    ensures NumDataCodewords(version, ecl) == At(DataCapacity(version), ecl)
  {
    hide NumDataCodewords, CapacityTo20, CapacityFrom21;
    if version <= 10 {
      Capacity10(version, ecl);
    } else if version <= 20 {
      Capacity20(version, ecl);
    } else if version <= 30 {
      Capacity30(version, ecl);
    } else {
      Capacity40(version, ecl);
    }
  }

  lemma {:induction false} RanksDiffer(ecl: Ecc, other: Ecc)
    ensures Rank(ecl) == Rank(other) <==> ecl == other
  {}

  lemma {:induction false} CapacityGrows(version: nat, ecl: Ecc)
    requires 1 <= version < 40
    ensures At(DataCapacity(version), ecl) < At(DataCapacity(version + 1), ecl)
  {}

  lemma {:induction false} CapacityFalls(version: nat, ecl: Ecc, other: Ecc)
    requires ValidVersion(version) && Rank(ecl) < Rank(other)
    ensures At(DataCapacity(version), ecl) > At(DataCapacity(version), other)
  {}

  /** A higher version holds more at every level, and exactly the higher levels less in every version. */
  lemma {:induction false} CapacityOrder(version: nat, ecl: Ecc, other: Ecc)
    requires ValidVersion(version)
    ensures version < 40 ==> NumDataCodewords(version, ecl) < NumDataCodewords(version + 1, ecl)
    ensures Rank(ecl) < Rank(other) <==> NumDataCodewords(version, ecl) > NumDataCodewords(version, other)
  {
    hide NumDataCodewords, DataCapacity, At;
    DataCapacityIs(version, ecl);
    DataCapacityIs(version, other);
    if version < 40 {
      DataCapacityIs(version + 1, ecl);
      CapacityGrows(version, ecl);
    }
    if Rank(ecl) < Rank(other) { CapacityFalls(version, ecl, other); }
    if Rank(other) < Rank(ecl) { CapacityFalls(version, other, ecl); }
    RanksDiffer(ecl, other);
  }
}
