/**
 * The segment encoder: the character-to-segment table and the bytes `show`
 * computes from four characters before anything is sent on the bus.
 */
module Segments {
  import opened JavaBytes
  import opened Outcomes

  /** Character to segment byte; bits 0..6 light segments A..G, bit 7 is the double point. */
  type Table = map<char, int8>

  /** The 19 entries `initMap` puts into the table; no character is put twice. */
  const DefaultTable: Table := map[
    '0' := 0x3F, '1' := 0x06, '2' := 0x5B, '3' := 0x4F, '4' := 0x66,
    '5' := 0x6D, '6' := 0x7D, '7' := 0x07, '8' := 0x7F, '9' := 0x6F,
    'A' := 0x77, 'B' := 0x7F, 'C' := 0x39, 'D' := 0x3F, 'E' := 0x79, 'F' := 0x71,
    ' ' := 0x00, '-' := 0x40, '_' := 0x08
  ]

  /** The characters `show` holds before anything has been shown. */
  const Dashes: seq<char> := "----"

  /** Every character of `s` has an entry in `table`. */
  predicate Supported(table: Table, s: seq<char>)
  {
    forall i :: 0 <= i < |s| ==> s[i] in table
  }

  /** The index of the first character of `s` missing from `table`, if any. */
  function FirstUnsupported(table: Table, s: seq<char>): (r: Option<nat>)
    ensures r.None? <==> Supported(table, s)
    ensures r.Some? ==> r.value < |s| && s[r.value] !in table && Supported(table, s[..r.value])
    decreases |s|
  {
    if s == [] then None
    else if s[0] !in table then Some(0)
    else match FirstUnsupported(table, s[1..])
      case None => None
      case Some(i) =>
        assert s[..i + 1] == [s[0]] + s[1..][..i];
        Some(i + 1)
  }

  /** The four segment bytes of `s`, with the double point added to the second one. */
  function Digits(table: Table, s: seq<char>, doublePoint: bool): seq<int8>
    requires |s| == 4 && Supported(table, s)
  {
    [ table[s[0]],
      if doublePoint then ToByte(table[s[1]] as int + 0x80) else table[s[1]],
      table[s[2]],
      table[s[3]] ]
  }

  /**
   * What `show(data)` sends as segment bytes, or the exception it throws
   * first. The double point is added to byte 1 with a wrapping `+= 0x80`.
   */
  function Encode(table: Table, data: Option<seq<char>>, doublePoint: bool): (r: Result<seq<int8>>)
    ensures r.Ok? ==> |r.value| == 4
  {
    if data.None? || |data.value| != 4 then Err(IllegalArgument(WrongLength))
    else match FirstUnsupported(table, data.value)
      case Some(i) => Err(IllegalArgument(UnsupportedChar(data.value[i])))
      case None => Ok(Digits(table, data.value, doublePoint))
  }

  /** `show` succeeds exactly on four characters that all have a table entry. */
  lemma EncodeSucceeds(table: Table, data: Option<seq<char>>, doublePoint: bool)
    ensures Encode(table, data, doublePoint).Ok? <==> data.Some? && |data.value| == 4 && Supported(table, data.value)
  {
  }

  /** `show` stops at character `i` when it is the first one missing from the table. */
  lemma EncodeRejectsAt(table: Table, data: seq<char>, doublePoint: bool, i: nat)
    requires |data| == 4 && i < 4 && Supported(table, data[..i]) && data[i] !in table
    ensures Encode(table, Some(data), doublePoint) == Err(IllegalArgument(UnsupportedChar(data[i])))
  {
    FirstUnsupportedAt(table, data, i);
  }

  /** On four supported characters `show` computes the four segment bytes. */
  lemma EncodeAccepts(table: Table, data: seq<char>, doublePoint: bool)
    requires |data| == 4 && Supported(table, data)
    ensures Encode(table, Some(data), doublePoint) == Ok(Digits(table, data, doublePoint))
  {
  }

  /** A null array or one whose length is not 4 is refused with `WrongLength`, whatever the table holds. */
  lemma EncodeWrongLength(table: Table, data: Option<seq<char>>, doublePoint: bool)
    requires data.None? || |data.value| != 4
    ensures Encode(table, data, doublePoint) == Err(IllegalArgument(WrongLength))
  {
  }

  /** Four characters with one missing from the table are refused naming the first missing character. */
  lemma EncodeNamesFirstUnsupported(table: Table, data: seq<char>, doublePoint: bool)
    requires |data| == 4 && !Supported(table, data)
    ensures exists i :: 0 <= i < 4 && data[i] !in table && Supported(table, data[..i])
                        && Encode(table, Some(data), doublePoint) == Err(IllegalArgument(UnsupportedChar(data[i])))
  {
    var i := FirstUnsupported(table, data).value;
    assert data[i] !in table && Supported(table, data[..i]);
  }

  /**
   * On success byte `i` is the table entry of character `i`, except that
   * with the double point on byte 1 is the entry plus 0x80, modulo 256.
   */
  lemma EncodeBytes(table: Table, data: seq<char>, doublePoint: bool)
    requires |data| == 4 && Supported(table, data)
    ensures Encode(table, Some(data), doublePoint).Ok?
    ensures forall i :: 0 <= i < 4 && i != 1 ==> Encode(table, Some(data), doublePoint).value[i] == table[data[i]]
    ensures Unsigned(Encode(table, Some(data), doublePoint).value[1])
            == (Unsigned(table[data[1]]) + (if doublePoint then 0x80 else 0)) % 256
  {
  }

  /**
   * `+= 0x80` flips bit 7 of a segment byte and keeps bits 0..6. It sets the
   * double-point bit, like `|= 0x80`, exactly when that bit was clear, that
   * is when the byte is not negative as a Java `byte`.
   */
  lemma AddHighBit(m: int8)
    ensures forall j :: 0 <= j < 7 ==> Bit(Unsigned(ToByte(m as int + 0x80)), j) == Bit(Unsigned(m), j)
    ensures Bit(Unsigned(ToByte(m as int + 0x80)), 7) == 1 - Bit(Unsigned(m), 7)
    ensures Bit(Unsigned(m), 7) == 0 <==> 0 <= m
  {
    assert Pow2(7) == 128;
    var u := Unsigned(m);
    var d := Unsigned(ToByte(m as int + 0x80));
    if 0 <= m {
      assert d == u + 128;
      AddPowFlipsBit(u, 7);
    } else {
      assert u == d + 128;
      AddPowFlipsBit(d, 7);
    }
  }

  /** Every default segment byte has the double-point bit clear. */
  lemma DefaultTableClear(c: char)
    requires c in DefaultTable
    ensures 0 <= DefaultTable[c] && Bit(Unsigned(DefaultTable[c]), 7) == 0
  {
    AddHighBit(DefaultTable[c]);
  }

  /**
   * The double-point flag changes nothing but bit 7 of byte 1: both settings
   * fail alike or succeed alike, bytes 0, 2 and 3 and bits 0..6 of byte 1 are
   * the same, and bit 7 of byte 1 is flipped.
   */
  lemma DoublePointOnlyBit7(table: Table, data: Option<seq<char>>)
    ensures Encode(table, data, true).Ok? == Encode(table, data, false).Ok?
    ensures Encode(table, data, true).Err? ==> Encode(table, data, true) == Encode(table, data, false)
    ensures Encode(table, data, true).Ok? ==>
      var on, off := Encode(table, data, true).value, Encode(table, data, false).value;
      (forall i :: 0 <= i < 4 && i != 1 ==> on[i] == off[i])
      && (forall j :: 0 <= j < 7 ==> Bit(Unsigned(on[1]), j) == Bit(Unsigned(off[1]), j))
      && Bit(Unsigned(on[1]), 7) == 1 - Bit(Unsigned(off[1]), 7)
  {
    EncodeSucceeds(table, data, true);
    EncodeSucceeds(table, data, false);
    if Encode(table, data, true).Ok? {
      AddHighBit(table[data.value[1]]);
    }
  }

  /** Re-seeding the table (a retried setup) changes nothing more: the defaults win over any earlier entry either way. */
  lemma ReseedIdempotent(table: Table)
    ensures (table + DefaultTable) + DefaultTable == table + DefaultTable
    ensures DefaultTable.Keys <= (table + DefaultTable).Keys
    ensures forall c :: c in table && c !in DefaultTable ==> (table + DefaultTable)[c] == table[c]
  {
  }

  /** Once the defaults are in the table, the characters `show` last stored can be shown again. */
  lemma LastShownSupported(table: Table, last: seq<char>)
    requires last == Dashes || Supported(table, last)
    requires DefaultTable.Keys <= table.Keys
    ensures Supported(table, last)
  {
    if last == Dashes {
      assert '-' in DefaultTable;
    }
  }

  /** When the characters before index `i` are in the table and the one at `i` is not, `i` is the first unsupported index. */
  lemma {:induction false} FirstUnsupportedAt(table: Table, s: seq<char>, i: nat)
    requires i < |s| && Supported(table, s[..i]) && s[i] !in table
    ensures FirstUnsupported(table, s) == Some(i)
    decreases i
  {
    if i > 0 {
      assert s[1..][..i - 1] == s[..i][1..];
      FirstUnsupportedAt(table, s[1..], i - 1);
    }
  }
}
