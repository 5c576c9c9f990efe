// Some bytes on disk that every implementation of the formats agrees on.

module FormatExamples {
  import opened Wrappers
  import opened Coding
  import opened Crc32c
  import DbFormat
  import BatchFormat
  import LogFormat
  import TableFormat
  import VersionEdits

  const DIGITS: seq<bv8> := [0x31, 0x32, 0x33, 0x34, 0x35, 0x36, 0x37, 0x38, 0x39]

  function Digits(n: nat): (r: seq<bv8>)
    requires n <= 9
  {
    DIGITS[..n]
  }

  lemma NextDigit(n: nat)
    requires n < 9
    ensures AddBytes(ALL_ONES, Digits(n + 1)) == AddByte(AddBytes(ALL_ONES, Digits(n)), DIGITS[n])
  {
    hide AddByte;
    assert Digits(n + 1)[..n] == Digits(n) && Digits(n + 1)[n] == DIGITS[n];
  }

  lemma DigitSteps()
    ensures AddByte(0xffff_ffff, 0x31) == 0x6f0a_661c && AddByte(0x6f0a_661c, 0x32) == 0x8caa_3b9f
    ensures AddByte(0x8caa_3b9f, 0x33) == 0xef84_d04d && AddByte(0xef84_d04d, 0x34) == 0x09c5_0b11
    ensures AddByte(0x09c5_0b11, 0x35) == 0xe72e_dcca && AddByte(0xe72e_dcca, 0x36) == 0xbeca_8e79
    ensures AddByte(0xbeca_8e79, 0x37) == 0xedbd_6815 && AddByte(0xedbd_6815, 0x38) == 0x9f78_7f65
    ensures AddByte(0x9f78_7f65, 0x39) == 0x1cf9_6d7c
  {
  }

  // The check value of CRC-32C: that of the string "123456789".
  lemma CrcCheckValue()
    ensures Value(Digits(9)) == 0xe306_9283
  {
    DigitSteps();
    hide AddByte;
    assert AddBytes(ALL_ONES, Digits(0)) == ALL_ONES;
    NextDigit(0);
    NextDigit(1);
    NextDigit(2);
    NextDigit(3);
    NextDigit(4);
    NextDigit(5);
    NextDigit(6);
    NextDigit(7);
    NextDigit(8);
    hide Digits, AddBytes;
    assert Xor(0, ALL_ONES) == ALL_ONES;
    assert Xor(0x1cf9_6d7c, ALL_ONES) == 0xe306_9283;
  }

  lemma RecordSteps()
    ensures AddByte(0xffff_ffff, 1) == 0x5fe9_2fad && AddByte(0x5fe9_2fad, 0x61) == 0x8e91_003b
    ensures Mask(0x716e_ffc4) == 0xa20b_cdb5
  {
  }

  lemma RecordChecksum(data: seq<bv8>)
    requires data == [1, 0x61]
    ensures Mask(Value(data)) as int == 0xa20b_cdb5
  {
    RecordSteps();
    hide AddByte, Mask;
    assert data[..1] == [1] && data[..1][..0] == [] && AddBytes(ALL_ONES, []) == ALL_ONES;
    assert AddBytes(ALL_ONES, data[..1]) == AddByte(ALL_ONES, 1);
    assert Xor(0, ALL_ONES) == ALL_ONES && Xor(0x8e91_003b, ALL_ONES) == 0x716e_ffc4;
  }

  // A log record with the payload "a": masked checksum, length, type, payload.
  lemma LogRecordExample()
    ensures LogFormat.Physical(LogFormat.FULL_TYPE, [97]) == [181, 205, 11, 162, 1, 0, 1, 97]
  {
    hide Value, Mask;
    var data: seq<bv8> := [1, 0x61];
    assert Bits([97]) == [0x61] && [LogFormat.FULL_TYPE as bv8] + [0x61] == data;
    RecordChecksum(data);
    assert LogFormat.Header(1, [97]) == [181, 205, 11, 162, 1, 0, 1];
  }

  lemma SmallVarints()
    ensures Varint(0) == [0] && Varint(1) == [1] && Varint(2) == [2] && Varint(3) == [3] && Varint(4) == [4]
    ensures Varint(5) == [5] && Varint(6) == [6] && Varint(7) == [7] && Varint(9) == [9] && Varint(300) == [172, 2]
  {
  }

  // A batch numbered 300 that puts "k" to "v" and deletes "d".
  lemma BatchExample()
    ensures BatchFormat.BatchBytes(300, [BatchFormat.Put([107], [118]), BatchFormat.Delete([100])])
      == [44, 1, 0, 0, 0, 0, 0, 0, 2, 0, 0, 0, 1, 1, 107, 1, 118, 0, 1, 100]
  {
    SmallVarints();
    hide Varint;
    assert EncodeFixed64(300) == [44, 1, 0, 0, 0, 0, 0, 0] && EncodeFixed32(2) == [2, 0, 0, 0];
    hide EncodeFixed64, EncodeFixed32;
    var put, del := BatchFormat.Put([107], [118]), BatchFormat.Delete([100]);
    var ops := [put, del];
    assert BatchFormat.OpBytes(put) == [1, 1, 107, 1, 118] && BatchFormat.OpBytes(del) == [0, 1, 100];
    assert ops[..1] == [put] && [put][..0] == [];
    assert BatchFormat.OpsBytes([put]) == [1, 1, 107, 1, 118];
    assert BatchFormat.OpsBytes(ops) == [1, 1, 107, 1, 118, 0, 1, 100];
  }

  // The internal key of "k" for a value and for a deletion, both numbered 258.
  lemma InternalKeyExample()
    ensures DbFormat.InternalKey([107], 258, DbFormat.TYPE_VALUE) == [107, 1, 2, 1, 0, 0, 0, 0, 0]
    ensures DbFormat.InternalKey([107], 258, DbFormat.TYPE_DELETION) == [107, 0, 2, 1, 0, 0, 0, 0, 0]
  {
  }

  // The footer ends with the magic number, low word first.
  lemma FooterExample(meta: TableFormat.Handle, index: TableFormat.Handle)
    ensures TableFormat.Footer(meta, index)[40..] == [0x57, 0xfb, 0x80, 0x8b, 0x24, 0x75, 0x47, 0xdb]
  {
    assert TableFormat.Footer(meta, index)[40..]
      == EncodeFixed32(TableFormat.MAGIC_LOW) + EncodeFixed32(TableFormat.MAGIC_HIGH);
  }

  // One record of each kind in a version edit.
  lemma EditExamples()
    ensures VersionEdits.ItemBytes(VersionEdits.Comparator([97])) == [1, 1, 97]
    ensures VersionEdits.ItemBytes(VersionEdits.LogNumber(300)) == [2, 172, 2]
    ensures VersionEdits.ItemBytes(VersionEdits.NextFileNumber(300)) == [3, 172, 2]
    ensures VersionEdits.ItemBytes(VersionEdits.LastSequence(300)) == [4, 172, 2]
    ensures VersionEdits.ItemBytes(VersionEdits.CompactPointer(2, [97])) == [5, 2, 1, 97]
    ensures VersionEdits.ItemBytes(VersionEdits.DeletedFile(2, 300)) == [6, 2, 172, 2]
    ensures VersionEdits.ItemBytes(VersionEdits.NewFile(2, VersionEdits.FileMetaData(300, 5, [97], [98])))
      == [7, 2, 172, 2, 5, 1, 97, 1, 98]
    ensures VersionEdits.ItemBytes(VersionEdits.PrevLogNumber(0)) == [9, 0]
  {
    SmallVarints();
    hide Varint;
    assert Delimited([97]) == [1, 97] && Delimited([98]) == [1, 98];
    assert [2] + [172, 2] + [5] + [1, 97] + [1, 98] == [2, 172, 2, 5, 1, 97, 1, 98];
  }
}
