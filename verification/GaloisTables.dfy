/** The two constant tables of GF(256) that the QR decoder indexes, and the facts about their
    entries that the field laws rest on. Each table is a decision tree over its index whose
    leaves are rows of eight entries. */
module GaloisTables {
  function Row(k: int, a: int, b: int, c: int, d: int, e: int, f: int, g: int, h: int): int {
    if k < 4 then
      if k < 2 then (if k < 1 then a else b) else (if k < 3 then c else d)
    else
      if k < 6 then (if k < 5 then e else f) else (if k < 7 then g else h)
  }

  /** gf256_exp: the powers of the generator 2, for exponents 0 to 255. */
  function ExpTable(i: int): (r: int)
    ensures 0 <= r < 256
  {
    if i < 128 then
      if i < 64 then
        if i < 32 then
          if i < 16 then
            if i < 8 then
              Row(i - 0, 0x01, 0x02, 0x04, 0x08, 0x10, 0x20, 0x40, 0x80)
            else
              Row(i - 8, 0x1d, 0x3a, 0x74, 0xe8, 0xcd, 0x87, 0x13, 0x26)
          else
            if i < 24 then
              Row(i - 16, 0x4c, 0x98, 0x2d, 0x5a, 0xb4, 0x75, 0xea, 0xc9)
            else
              Row(i - 24, 0x8f, 0x03, 0x06, 0x0c, 0x18, 0x30, 0x60, 0xc0)
        else
          if i < 48 then
            if i < 40 then
              Row(i - 32, 0x9d, 0x27, 0x4e, 0x9c, 0x25, 0x4a, 0x94, 0x35)
            else
              Row(i - 40, 0x6a, 0xd4, 0xb5, 0x77, 0xee, 0xc1, 0x9f, 0x23)
          else
            if i < 56 then
              Row(i - 48, 0x46, 0x8c, 0x05, 0x0a, 0x14, 0x28, 0x50, 0xa0)
            else
              Row(i - 56, 0x5d, 0xba, 0x69, 0xd2, 0xb9, 0x6f, 0xde, 0xa1)
      else
        if i < 96 then
          if i < 80 then
            if i < 72 then
              Row(i - 64, 0x5f, 0xbe, 0x61, 0xc2, 0x99, 0x2f, 0x5e, 0xbc)
            else
              Row(i - 72, 0x65, 0xca, 0x89, 0x0f, 0x1e, 0x3c, 0x78, 0xf0)
          else
            if i < 88 then
              Row(i - 80, 0xfd, 0xe7, 0xd3, 0xbb, 0x6b, 0xd6, 0xb1, 0x7f)
            else
              Row(i - 88, 0xfe, 0xe1, 0xdf, 0xa3, 0x5b, 0xb6, 0x71, 0xe2)
        else
          if i < 112 then
            if i < 104 then
              Row(i - 96, 0xd9, 0xaf, 0x43, 0x86, 0x11, 0x22, 0x44, 0x88)
            else
              Row(i - 104, 0x0d, 0x1a, 0x34, 0x68, 0xd0, 0xbd, 0x67, 0xce)
          else
            if i < 120 then
              Row(i - 112, 0x81, 0x1f, 0x3e, 0x7c, 0xf8, 0xed, 0xc7, 0x93)
            else
              Row(i - 120, 0x3b, 0x76, 0xec, 0xc5, 0x97, 0x33, 0x66, 0xcc)
    else
      if i < 192 then
        if i < 160 then
          if i < 144 then
            if i < 136 then
              Row(i - 128, 0x85, 0x17, 0x2e, 0x5c, 0xb8, 0x6d, 0xda, 0xa9)
            else
              Row(i - 136, 0x4f, 0x9e, 0x21, 0x42, 0x84, 0x15, 0x2a, 0x54)
          else
            if i < 152 then
              Row(i - 144, 0xa8, 0x4d, 0x9a, 0x29, 0x52, 0xa4, 0x55, 0xaa)
            else
              Row(i - 152, 0x49, 0x92, 0x39, 0x72, 0xe4, 0xd5, 0xb7, 0x73)
        else
          if i < 176 then
            if i < 168 then
              Row(i - 160, 0xe6, 0xd1, 0xbf, 0x63, 0xc6, 0x91, 0x3f, 0x7e)
            else
              Row(i - 168, 0xfc, 0xe5, 0xd7, 0xb3, 0x7b, 0xf6, 0xf1, 0xff)
          else
            if i < 184 then
              Row(i - 176, 0xe3, 0xdb, 0xab, 0x4b, 0x96, 0x31, 0x62, 0xc4)
            else
              Row(i - 184, 0x95, 0x37, 0x6e, 0xdc, 0xa5, 0x57, 0xae, 0x41)
      else
        if i < 224 then
          if i < 208 then
            if i < 200 then
              Row(i - 192, 0x82, 0x19, 0x32, 0x64, 0xc8, 0x8d, 0x07, 0x0e)
            else
              Row(i - 200, 0x1c, 0x38, 0x70, 0xe0, 0xdd, 0xa7, 0x53, 0xa6)
          else
            if i < 216 then
              Row(i - 208, 0x51, 0xa2, 0x59, 0xb2, 0x79, 0xf2, 0xf9, 0xef)
            else
              Row(i - 216, 0xc3, 0x9b, 0x2b, 0x56, 0xac, 0x45, 0x8a, 0x09)
        else
          if i < 240 then
            if i < 232 then
              Row(i - 224, 0x12, 0x24, 0x48, 0x90, 0x3d, 0x7a, 0xf4, 0xf5)
            else
              Row(i - 232, 0xf7, 0xf3, 0xfb, 0xeb, 0xcb, 0x8b, 0x0b, 0x16)
          else
            if i < 248 then
              Row(i - 240, 0x2c, 0x58, 0xb0, 0x7d, 0xfa, 0xe9, 0xcf, 0x83)
            else
              Row(i - 248, 0x1b, 0x36, 0x6c, 0xd8, 0xad, 0x47, 0x8e, 0x01)
  }

  /** gf256_log: the logarithm of each byte; the entry for 1 is 255 and the entry for 0 is 0. */
  function LogTable(i: int): (r: int)
    ensures 0 <= r < 256
  {
    if i < 128 then
      if i < 64 then
        if i < 32 then
          if i < 16 then
            if i < 8 then
              Row(i - 0, 0x00, 0xff, 0x01, 0x19, 0x02, 0x32, 0x1a, 0xc6)
            else
              Row(i - 8, 0x03, 0xdf, 0x33, 0xee, 0x1b, 0x68, 0xc7, 0x4b)
          else
            if i < 24 then
              Row(i - 16, 0x04, 0x64, 0xe0, 0x0e, 0x34, 0x8d, 0xef, 0x81)
            else
              Row(i - 24, 0x1c, 0xc1, 0x69, 0xf8, 0xc8, 0x08, 0x4c, 0x71)
        else
          if i < 48 then
            if i < 40 then
              Row(i - 32, 0x05, 0x8a, 0x65, 0x2f, 0xe1, 0x24, 0x0f, 0x21)
            else
              Row(i - 40, 0x35, 0x93, 0x8e, 0xda, 0xf0, 0x12, 0x82, 0x45)
          else
            if i < 56 then
              Row(i - 48, 0x1d, 0xb5, 0xc2, 0x7d, 0x6a, 0x27, 0xf9, 0xb9)
            else
              Row(i - 56, 0xc9, 0x9a, 0x09, 0x78, 0x4d, 0xe4, 0x72, 0xa6)
      else
        if i < 96 then
          if i < 80 then
            if i < 72 then
              Row(i - 64, 0x06, 0xbf, 0x8b, 0x62, 0x66, 0xdd, 0x30, 0xfd)
            else
              Row(i - 72, 0xe2, 0x98, 0x25, 0xb3, 0x10, 0x91, 0x22, 0x88)
          else
            if i < 88 then
              Row(i - 80, 0x36, 0xd0, 0x94, 0xce, 0x8f, 0x96, 0xdb, 0xbd)
            else
              Row(i - 88, 0xf1, 0xd2, 0x13, 0x5c, 0x83, 0x38, 0x46, 0x40)
        else
          if i < 112 then
            if i < 104 then
              Row(i - 96, 0x1e, 0x42, 0xb6, 0xa3, 0xc3, 0x48, 0x7e, 0x6e)
            else
              Row(i - 104, 0x6b, 0x3a, 0x28, 0x54, 0xfa, 0x85, 0xba, 0x3d)
          else
            if i < 120 then
              Row(i - 112, 0xca, 0x5e, 0x9b, 0x9f, 0x0a, 0x15, 0x79, 0x2b)
            else
              Row(i - 120, 0x4e, 0xd4, 0xe5, 0xac, 0x73, 0xf3, 0xa7, 0x57)
    else
      if i < 192 then
        if i < 160 then
          if i < 144 then
            if i < 136 then
              Row(i - 128, 0x07, 0x70, 0xc0, 0xf7, 0x8c, 0x80, 0x63, 0x0d)
            else
              Row(i - 136, 0x67, 0x4a, 0xde, 0xed, 0x31, 0xc5, 0xfe, 0x18)
          else
            if i < 152 then
              Row(i - 144, 0xe3, 0xa5, 0x99, 0x77, 0x26, 0xb8, 0xb4, 0x7c)
            else
              Row(i - 152, 0x11, 0x44, 0x92, 0xd9, 0x23, 0x20, 0x89, 0x2e)
        else
          if i < 176 then
            if i < 168 then
              Row(i - 160, 0x37, 0x3f, 0xd1, 0x5b, 0x95, 0xbc, 0xcf, 0xcd)
            else
              Row(i - 168, 0x90, 0x87, 0x97, 0xb2, 0xdc, 0xfc, 0xbe, 0x61)
          else
            if i < 184 then
              Row(i - 176, 0xf2, 0x56, 0xd3, 0xab, 0x14, 0x2a, 0x5d, 0x9e)
            else
              Row(i - 184, 0x84, 0x3c, 0x39, 0x53, 0x47, 0x6d, 0x41, 0xa2)
      else
        if i < 224 then
          if i < 208 then
            if i < 200 then
              Row(i - 192, 0x1f, 0x2d, 0x43, 0xd8, 0xb7, 0x7b, 0xa4, 0x76)
            else
              Row(i - 200, 0xc4, 0x17, 0x49, 0xec, 0x7f, 0x0c, 0x6f, 0xf6)
          else
            if i < 216 then
              Row(i - 208, 0x6c, 0xa1, 0x3b, 0x52, 0x29, 0x9d, 0x55, 0xaa)
            else
              Row(i - 216, 0xfb, 0x60, 0x86, 0xb1, 0xbb, 0xcc, 0x3e, 0x5a)
        else
          if i < 240 then
            if i < 232 then
              Row(i - 224, 0xcb, 0x59, 0x5f, 0xb0, 0x9c, 0xa9, 0xa0, 0x51)
            else
              Row(i - 232, 0x0b, 0xf5, 0x16, 0xeb, 0x7a, 0x75, 0x2c, 0xd7)
          else
            if i < 248 then
              Row(i - 240, 0x4f, 0xae, 0xd5, 0xe9, 0xe6, 0xe7, 0xad, 0xe8)
            else
              Row(i - 248, 0x74, 0xd6, 0xf4, 0xea, 0xa8, 0x50, 0x58, 0xaf)
  }

  // Doubling in the field, in terms of the integer value of a byte: shift left, and when a bit
  // falls off the top, flip the bits of 0x1d.

  function FlipBit(x: int, k: int): int
    requires k > 0
  {
    if (x / k) % 2 == 0 then x + k else x - k
  }

  function Doubled(a: int): int {
    if a < 128 then 2 * a else FlipBit(FlipBit(FlipBit(2 * a - 255, 4), 8), 16)
  }

  lemma LogOfExp0(k: int)
    requires 1 <= k < 64
    ensures LogTable(ExpTable(k)) == k
  {}

  lemma LogOfExp64(k: int)
    requires 64 <= k < 128
    ensures LogTable(ExpTable(k)) == k
  {}

  lemma LogOfExp128(k: int)
    requires 128 <= k < 192
    ensures LogTable(ExpTable(k)) == k
  {}

  lemma LogOfExp192(k: int)
    requires 192 <= k < 256
    ensures LogTable(ExpTable(k)) == k
  {}

  lemma ExpOfLog0(k: int)
    requires 1 <= k < 64
    ensures ExpTable(LogTable(k)) == k
  {}

  lemma ExpOfLog64(k: int)
    requires 64 <= k < 128
    ensures ExpTable(LogTable(k)) == k
  {}

  lemma ExpOfLog128(k: int)
    requires 128 <= k < 192
    ensures ExpTable(LogTable(k)) == k
  {}

  lemma ExpOfLog192(k: int)
    requires 192 <= k < 256
    ensures ExpTable(LogTable(k)) == k
  {}

  lemma ExpDoubles0(k: int)
    requires 0 <= k < 8
    ensures ExpTable(k + 1) == Doubled(ExpTable(k))
  {}

  lemma ExpDoubles8(k: int)
    requires 8 <= k < 16
    ensures ExpTable(k + 1) == Doubled(ExpTable(k))
  {}

  lemma ExpDoubles16(k: int)
    requires 16 <= k < 24
    ensures ExpTable(k + 1) == Doubled(ExpTable(k))
  {}

  lemma ExpDoubles24(k: int)
    requires 24 <= k < 32
    ensures ExpTable(k + 1) == Doubled(ExpTable(k))
  {}

  lemma ExpDoubles32(k: int)
    requires 32 <= k < 40
    ensures ExpTable(k + 1) == Doubled(ExpTable(k))
  {}

  lemma ExpDoubles40(k: int)
    requires 40 <= k < 48
    ensures ExpTable(k + 1) == Doubled(ExpTable(k))
  {}

  lemma ExpDoubles48(k: int)
    requires 48 <= k < 56
    ensures ExpTable(k + 1) == Doubled(ExpTable(k))
  {}

  lemma ExpDoubles56(k: int)
    requires 56 <= k < 64
    ensures ExpTable(k + 1) == Doubled(ExpTable(k))
  {}

  lemma ExpDoubles64(k: int)
    requires 64 <= k < 72
    ensures ExpTable(k + 1) == Doubled(ExpTable(k))
  {}

  lemma ExpDoubles72(k: int)
    requires 72 <= k < 80
    ensures ExpTable(k + 1) == Doubled(ExpTable(k))
  {}

  lemma ExpDoubles80(k: int)
    requires 80 <= k < 88
    ensures ExpTable(k + 1) == Doubled(ExpTable(k))
  {}

  lemma ExpDoubles88(k: int)
    requires 88 <= k < 96
    ensures ExpTable(k + 1) == Doubled(ExpTable(k))
  {}

  lemma ExpDoubles96(k: int)
    requires 96 <= k < 104
    ensures ExpTable(k + 1) == Doubled(ExpTable(k))
  {}

  lemma ExpDoubles104(k: int)
    requires 104 <= k < 112
    ensures ExpTable(k + 1) == Doubled(ExpTable(k))
  {}

  lemma ExpDoubles112(k: int)
    requires 112 <= k < 120
    ensures ExpTable(k + 1) == Doubled(ExpTable(k))
  {}

  lemma ExpDoubles120(k: int)
    requires 120 <= k < 128
    ensures ExpTable(k + 1) == Doubled(ExpTable(k))
  {}

  lemma ExpDoubles128(k: int)
    requires 128 <= k < 136
    ensures ExpTable(k + 1) == Doubled(ExpTable(k))
  {}

  lemma ExpDoubles136(k: int)
    requires 136 <= k < 144
    ensures ExpTable(k + 1) == Doubled(ExpTable(k))
  {}

  lemma ExpDoubles144(k: int)
    requires 144 <= k < 152
    ensures ExpTable(k + 1) == Doubled(ExpTable(k))
  {}

  lemma ExpDoubles152(k: int)
    requires 152 <= k < 160
    ensures ExpTable(k + 1) == Doubled(ExpTable(k))
  {}

  lemma ExpDoubles160(k: int)
    requires 160 <= k < 168
    ensures ExpTable(k + 1) == Doubled(ExpTable(k))
  {}

  lemma ExpDoubles168(k: int)
    requires 168 <= k < 176
    ensures ExpTable(k + 1) == Doubled(ExpTable(k))
  {}

  lemma ExpDoubles176(k: int)
    requires 176 <= k < 184
    ensures ExpTable(k + 1) == Doubled(ExpTable(k))
  {}

  lemma ExpDoubles184(k: int)
    requires 184 <= k < 192
    ensures ExpTable(k + 1) == Doubled(ExpTable(k))
  {}

  lemma ExpDoubles192(k: int)
    requires 192 <= k < 200
    ensures ExpTable(k + 1) == Doubled(ExpTable(k))
  {}

  lemma ExpDoubles200(k: int)
    requires 200 <= k < 208
    ensures ExpTable(k + 1) == Doubled(ExpTable(k))
  {}

  lemma ExpDoubles208(k: int)
    requires 208 <= k < 216
    ensures ExpTable(k + 1) == Doubled(ExpTable(k))
  {}

  lemma ExpDoubles216(k: int)
    requires 216 <= k < 224
    ensures ExpTable(k + 1) == Doubled(ExpTable(k))
  {}

  lemma ExpDoubles224(k: int)
    requires 224 <= k < 232
    ensures ExpTable(k + 1) == Doubled(ExpTable(k))
  {}

  lemma ExpDoubles232(k: int)
    requires 232 <= k < 240
    ensures ExpTable(k + 1) == Doubled(ExpTable(k))
  {}

  lemma ExpDoubles240(k: int)
    requires 240 <= k < 248
    ensures ExpTable(k + 1) == Doubled(ExpTable(k))
  {}

  lemma ExpDoubles248(k: int)
    requires 248 <= k < 255
    ensures ExpTable(k + 1) == Doubled(ExpTable(k))
  {}

  lemma LogOfExp(k: int)
    requires 1 <= k < 256
    ensures LogTable(ExpTable(k)) == k
  {
    hide *;
    if k < 64 {
      LogOfExp0(k);
    } else if k < 128 {
      LogOfExp64(k);
    } else if k < 192 {
      LogOfExp128(k);
    } else {
      LogOfExp192(k);
    }
  }

  lemma ExpOfLog(k: int)
    requires 1 <= k < 256
    ensures ExpTable(LogTable(k)) == k
  {
    hide *;
    if k < 64 {
      ExpOfLog0(k);
    } else if k < 128 {
      ExpOfLog64(k);
    } else if k < 192 {
      ExpOfLog128(k);
    } else {
      ExpOfLog192(k);
    }
  }

  lemma ExpDoubles(k: int)
    requires 0 <= k < 255
    ensures ExpTable(k + 1) == Doubled(ExpTable(k))
  {
    hide *;
    if k < 8 {
      ExpDoubles0(k);
    } else if k < 16 {
      ExpDoubles8(k);
    } else if k < 24 {
      ExpDoubles16(k);
    } else if k < 32 {
      ExpDoubles24(k);
    } else if k < 40 {
      ExpDoubles32(k);
    } else if k < 48 {
      ExpDoubles40(k);
    } else if k < 56 {
      ExpDoubles48(k);
    } else if k < 64 {
      ExpDoubles56(k);
    } else if k < 72 {
      ExpDoubles64(k);
    } else if k < 80 {
      ExpDoubles72(k);
    } else if k < 88 {
      ExpDoubles80(k);
    } else if k < 96 {
      ExpDoubles88(k);
    } else if k < 104 {
      ExpDoubles96(k);
    } else if k < 112 {
      ExpDoubles104(k);
    } else if k < 120 {
      ExpDoubles112(k);
    } else if k < 128 {
      ExpDoubles120(k);
    } else if k < 136 {
      ExpDoubles128(k);
    } else if k < 144 {
      ExpDoubles136(k);
    } else if k < 152 {
      ExpDoubles144(k);
    } else if k < 160 {
      ExpDoubles152(k);
    } else if k < 168 {
      ExpDoubles160(k);
    } else if k < 176 {
      ExpDoubles168(k);
    } else if k < 184 {
      ExpDoubles176(k);
    } else if k < 192 {
      ExpDoubles184(k);
    } else if k < 200 {
      ExpDoubles192(k);
    } else if k < 208 {
      ExpDoubles200(k);
    } else if k < 216 {
      ExpDoubles208(k);
    } else if k < 224 {
      ExpDoubles216(k);
    } else if k < 232 {
      ExpDoubles224(k);
    } else if k < 240 {
      ExpDoubles232(k);
    } else if k < 248 {
      ExpDoubles240(k);
    } else {
      ExpDoubles248(k);
    }
  }

  lemma NonzeroEntries(k: int)
    requires 0 <= k < 256
    ensures ExpTable(k) != 0 && (k != 0 ==> 1 <= LogTable(k))
  {}

  lemma EndPoints()
    ensures ExpTable(0) == 1 && ExpTable(1) == 2 && ExpTable(255) == 1 && LogTable(1) == 255
  {}
}
