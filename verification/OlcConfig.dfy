/** The log-collection configuration: sixteen 64-bit masks printed as comma-separated
    hexadecimal text and parsed back from it. */
module OlcConfig {
  import opened Kernel

  const OLC_CONFIG_NUM_MAX := 16
  const OLC_CONFIG_SIZE := 272
  const OLC_CONFIG_BIT_NUM := 16
  const TWO_64: nat := 0x1_0000_0000_0000_0000

  type UInt64 = x: int | 0 <= x < 0x1_0000_0000_0000_0000

  // ------------------------------------------------------------- hexadecimal

  const DIGITS := "0123456789abcdef"

  /** `%llx`: lower-case hexadecimal without leading zeros. */
  function Hex(n: nat): (s: string)
    ensures s != []
  {
    if n < 16 then [DIGITS[n]] else Hex(n / 16) + [DIGITS[n % 16]]
  }

  function DigitValue(c: char): Option<int>
  {
    if '0' <= c <= '9' then Some(c as int - '0' as int)
    else if 'a' <= c <= 'f' then Some(c as int - 'a' as int + 10)
    else if 'A' <= c <= 'F' then Some(c as int - 'A' as int + 10)
    else None
  }

  predicate AllDigits(s: string)
  {
    forall i :: 0 <= i < |s| ==> DigitValue(s[i]).Some?
  }

  function Value(s: string): (v: nat)
    requires AllDigits(s)
  {
    if s == [] then 0
    else
      var n := |s| - 1;
      16 * Value(s[..n]) + DigitValue(s[n]).value
  }

  /** Where an optional plus sign ends. */
  function SignEnd(s: string): (k: nat)
    ensures k <= |s|
  {
    if s != [] && s[0] == '+' then 1 else 0
  }

  /** Where an optional 0x prefix after it ends. */
  function PrefixEnd(s: string): (k: nat)
    ensures k <= |s|
  {
    var k := SignEnd(s);
    if k + 2 <= |s| && s[k] == '0' && (s[k + 1] == 'x' || s[k + 1] == 'X') then k + 2 else k
  }

  /** Where the digits end, before an optional final newline. */
  function DigitsEnd(s: string): (k: nat)
    ensures PrefixEnd(s) <= k <= |s|
  {
    if PrefixEnd(s) < |s| && s[|s| - 1] == '\n' then |s| - 1 else |s|
  }

  /** `kstrtoull` with base 16: an optional plus sign and 0x prefix, at least one digit,
      an optional final newline, and no overflow. */
  function ParseHex(field: string): (v: Option<UInt64>)
    ensures v.Some? ==> field != []
  {
    var digits := field[PrefixEnd(field)..DigitsEnd(field)];
    if digits == [] || !AllDigits(digits) then None
    else if Value(digits) >= TWO_64 then None
    else Some(Value(digits))
  }

  lemma HexDigit(d: nat)
    requires d < 16
    ensures DigitValue(DIGITS[d]) == Some(d)
    ensures DIGITS[d] !in ['+', 'x', 'X', ',', '\n', '\0']
  {
  }

  /** Printing is read back: the digits of n have the value n, and none of them is a
      character the parser or the separator treats specially. */
  lemma {:induction false} HexReadsBack(n: nat)
    ensures AllDigits(Hex(n)) && Value(Hex(n)) == n
    ensures forall i :: 0 <= i < |Hex(n)| ==> Hex(n)[i] !in ['+', 'x', 'X', ',', '\n', '\0']
    decreases n
  {
    HexDigit(n % 16);
    if n < 16 {
      assert Hex(n)[..0] == [];
    } else {
      HexReadsBack(n / 16);
      assert Hex(n)[..|Hex(n)| - 1] == Hex(n / 16);
    }
  }

  function Pow16(k: nat): (p: nat)
    ensures p >= 1
  {
    if k == 0 then 1 else 16 * Pow16(k - 1)
  }

  lemma {:induction false} HexLength(n: nat, k: nat)
    requires k >= 1 && n < Pow16(k)
    ensures |Hex(n)| <= k
    decreases k
  {
    if n >= 16 {
      HexLength(n / 16, k - 1);
    }
  }

  lemma Hex64Length(v: UInt64)
    ensures 1 <= |Hex(v)| <= OLC_CONFIG_BIT_NUM
  {
    assert Pow16(4) == 0x1_0000;
    assert Pow16(8) == 0x1_0000 * Pow16(4);
    assert Pow16(12) == 0x1_0000 * Pow16(8);
    assert Pow16(16) == 0x1_0000 * Pow16(12);
    HexLength(v, 16);
  }

  // ------------------------------------------------- what the parser accepts

  /** Upper-case digits are read like lower-case ones. */
  lemma UpperDigit(d: nat)
    requires d < 6
    ensures DigitValue("ABCDEF"[d]) == Some(10 + d)
  {
  }

  /** And nothing else is a digit. */
  lemma OnlyDigits(c: char)
    requires DigitValue(c).Some?
    ensures c in "0123456789" || c in "abcdef" || c in "ABCDEF"
  {
    if '0' <= c <= '9' {
      assert c == "0123456789"[c as int - '0' as int];
    } else if 'a' <= c <= 'f' {
      assert c == "abcdef"[c as int - 'a' as int];
    } else {
      assert c == "ABCDEF"[c as int - 'A' as int];
    }
  }

  lemma DigitsAreNotSpecial(digits: string, i: nat)
    requires AllDigits(digits) && i < |digits|
    ensures digits[i] !in ['+', 'x', 'X', '\n']
  {
    assert DigitValue(digits[i]).Some?;
  }

  lemma PartOf(before: string, part: string, after: string)
    ensures (before + part + after)[|before|..|before| + |part|] == part
  {
  }

  lemma NumberParts(sign: string, prefix: string, digits: string, end: string)
    requires (sign == "" || sign == "+") && (prefix == "" || prefix == "0x" || prefix == "0X")
    requires digits != "" && AllDigits(digits) && (end == "" || end == "\n")
    ensures var field := sign + prefix + digits + end;
            && PrefixEnd(field) == |sign| + |prefix|
            && DigitsEnd(field) == |sign| + |prefix| + |digits|
  {
    DigitsAreNotSpecial(digits, 0);
    DigitsAreNotSpecial(digits, |digits| - 1);
    if |digits| > 1 {
      DigitsAreNotSpecial(digits, 1);
    }
  }

  lemma DigitsAreRead(field: string, digits: string)
    requires digits == field[PrefixEnd(field)..DigitsEnd(field)] && digits != [] && AllDigits(digits)
    ensures ParseHex(field) == if Value(digits) < 0x1_0000_0000_0000_0000 then Some(Value(digits)) else None
  {
  }

  /** Main theorem: digits, after an optional sign and prefix and before an optional final
      newline, are read as their value, unless that does not fit 64 bits. */
  lemma NumberIsRead(sign: string, prefix: string, digits: string, end: string)
    requires (sign == "" || sign == "+") && (prefix == "" || prefix == "0x" || prefix == "0X")
    requires digits != "" && AllDigits(digits) && (end == "" || end == "\n")
    ensures ParseHex(sign + prefix + digits + end) ==
            if Value(digits) < 0x1_0000_0000_0000_0000 then Some(Value(digits)) else None
  {
    NumberParts(sign, prefix, digits, end);
    var field := sign + prefix + digits + end;
    PartOf(sign + prefix, digits, end);
    DigitsAreRead(field, digits);
  }

  lemma TakeInTwo(s: string, i: nat, j: nat)
    requires i <= j <= |s|
    ensures s[..j] == s[..i] + s[i..j]
  {
  }

  /** And nothing else is read. */
  lemma OnlyNumbersAreRead(field: string) returns (sign: string, prefix: string, digits: string, end: string)
    requires ParseHex(field).Some?
    ensures (sign == "" || sign == "+") && (prefix == "" || prefix == "0x" || prefix == "0X")
    ensures digits != "" && AllDigits(digits) && (end == "" || end == "\n")
    ensures field == sign + prefix + digits + end
  {
    var i, j, k := SignEnd(field), PrefixEnd(field), DigitsEnd(field);
    sign, prefix, digits, end := field[..i], field[i..j], field[j..k], field[k..];
    TakeInTwo(field, i, j);
    TakeInTwo(field, j, k);
    TakeInTwo(field, k, |field|);
    assert field[..|field|] == field && field[k..|field|] == end;
  }

  lemma ParsePrinted(v: UInt64)
    ensures ParseHex(Hex(v)) == Some(v)
  {
    HexReadsBack(v);
    NumberIsRead("", "", Hex(v), "");
    assert "" + "" + Hex(v) + "" == Hex(v);
  }

  // ------------------------------------------------------------- the text

  /** The printed form: one field per value, separated by commas. */
  function Printed(values: seq<UInt64>): string
  {
    if values == [] then []
    else if |values| == 1 then Hex(values[0])
    else Printed(values[..|values| - 1]) + "," + Hex(values[|values| - 1])
  }

  /** What stands before value `num` in the printed form. */
  function PrintedBefore(values: seq<UInt64>, num: nat): string
    requires num <= |values|
  {
    if num == 0 then [] else Printed(values[..num]) + ","
  }

  lemma PrintedSnoc(values: seq<UInt64>, num: nat)
    requires num < |values|
    ensures Printed(values[..num + 1]) == PrintedBefore(values, num) + Hex(values[num])
  {
    assert values[..num + 1][..num] == values[..num];
  }

  /** What `strsep` takes off the front, and what it leaves. */
  function FieldEnd(s: string): (i: nat)
    ensures i <= |s| && (forall j :: 0 <= j < i ==> s[j] != ',') && (i < |s| ==> s[i] == ',')
  {
    CommaFrom(s, 0)
  }

  /** The first comma at or after `k`, or the end of the text. */
  function CommaFrom(s: string, k: nat): (i: nat)
    requires k <= |s|
    ensures k <= i <= |s| && (forall j :: k <= j < i ==> s[j] != ',') && (i < |s| ==> s[i] == ',')
    decreases |s| - k
  {
    if k == |s| || s[k] == ',' then k else CommaFrom(s, k + 1)
  }

  function Fields(s: string): (f: seq<string>)
    ensures f != []
  {
    var i := FieldEnd(s);
    if i == |s| then [s] else [s[..i]] + Fields(s[i + 1..])
  }

  /** Assigning parsed fields to the masks from position `num` on. An overlong field
      stops the parse; one that does not parse keeps the old mask. */
  function Assigned(masks: seq<UInt64>, fields: seq<string>, num: nat): (r: seq<UInt64>)
    requires |masks| == OLC_CONFIG_NUM_MAX
    ensures |r| == OLC_CONFIG_NUM_MAX
    decreases fields
  {
    if num >= OLC_CONFIG_NUM_MAX || fields == [] || |fields[0]| > OLC_CONFIG_BIT_NUM then masks
    else
      var v := ParseHex(fields[0]);
      Assigned(if v.Some? then masks[num := v.value] else masks, fields[1..], num + 1)
  }

  /** The text that reaches the parser: a copy cut at the buffer size. */
  function Cut(text: string): string
  {
    if |text| < OLC_CONFIG_SIZE then text else text[..OLC_CONFIG_SIZE - 1]
  }

  // --------------------------------------------------------- the operations

  /** One turn of the parse: the first field, if short enough, sets its mask or not. */
  lemma AssignedStep(masks: seq<UInt64>, fields: seq<string>, num: nat)
    requires |masks| == OLC_CONFIG_NUM_MAX && num < OLC_CONFIG_NUM_MAX
    requires fields != [] && |fields[0]| <= OLC_CONFIG_BIT_NUM
    ensures var v := ParseHex(fields[0]);
            Assigned(masks, fields, num) ==
            Assigned(if v.Some? then masks[num := v.value] else masks, fields[1..], num + 1)
  {
  }

  /** The first field, and the fields after it. */
  lemma FieldsTail(s: string)
    ensures Fields(s)[0] == s[..FieldEnd(s)]
    ensures Fields(s)[1..] == if FieldEnd(s) < |s| then Fields(s[FieldEnd(s) + 1..]) else []
  {
  }

  /** `oplus_chg_olc_config_set`; `text` is the bytes before the terminator. */
  method ConfigSet(masks: array<UInt64>, text: string)
    requires masks.Length == OLC_CONFIG_NUM_MAX
    modifies masks
    ensures masks[..] == Assigned(old(masks[..]), Fields(Cut(text)), 0)
  {
    var rest := Cut(text);
    var num := 0;
    var more := true;
    ghost var fields := Fields(rest);
    while more
      invariant 0 <= num < OLC_CONFIG_NUM_MAX
      invariant more ==> fields == Fields(rest)
      invariant !more ==> fields == []
      invariant Assigned(masks[..], fields, num) == Assigned(old(masks[..]), Fields(Cut(text)), 0)
      decreases more, |rest|
    {
      var i := FieldEnd(rest);
      var config := rest[..i];
      FieldsTail(rest);
      if |config| > OLC_CONFIG_BIT_NUM {
        return;
      }
      AssignedStep(masks[..], fields, num);
      var v := ParseHex(config);
      if v.Some? {
        masks[num] := v.value;
      }
      num := num + 1;
      if num >= OLC_CONFIG_NUM_MAX {
        return;
      }
      fields := fields[1..];
      if i < |rest| {
        rest := rest[i + 1..];
      } else {
        more := false;
      }
    }
  }

  /** `oplus_chg_olc_config_get`: prints into `buf` and returns the text length. */
  method ConfigGet(masks: seq<UInt64>, buf: array<char>) returns (len: nat)
    requires |masks| == OLC_CONFIG_NUM_MAX && buf.Length >= OLC_CONFIG_SIZE
    modifies buf
    ensures len < OLC_CONFIG_SIZE
    ensures buf[..len] == Printed(masks)
  {
    var idx, num := 0, 0;
    while num < OLC_CONFIG_NUM_MAX
      invariant 0 <= num <= OLC_CONFIG_NUM_MAX && 0 <= idx <= 17 * num
      invariant num < OLC_CONFIG_NUM_MAX ==> buf[..idx] == PrintedBefore(masks, num)
      invariant num == OLC_CONFIG_NUM_MAX ==> 0 < idx && buf[..idx - 1] == Printed(masks[..num])
    {
      PrintedSnoc(masks, num);
      len := PrintField(masks[num], buf, idx);
      idx := idx + len;
      num := num + 1;
    }
    assert masks[..num] == masks;
    len := idx - 1;
  }

  /** Prints one value with its comma into what room is left of the 272 bytes, the
      terminator included, and copies as many bytes as the full text would have. */
  method PrintField(v: UInt64, buf: array<char>, idx: nat) returns (len: nat)
    requires buf.Length >= OLC_CONFIG_SIZE && idx + 17 <= OLC_CONFIG_SIZE
    modifies buf
    ensures len == |Hex(v)| + 1 <= 17
    ensures buf[..idx + len - 1] == old(buf[..idx]) + Hex(v)
    ensures idx + len < OLC_CONFIG_SIZE ==> buf[..idx + len] == old(buf[..idx]) + Hex(v) + ","
  {
    Hex64Length(v);
    var text := Hex(v) + ",";
    var room := OLC_CONFIG_SIZE - idx;
    var tmp := if |text| < room then text else text[..room - 1] + ['\0'];
    ghost var before := buf[..idx];
    CopyIn(buf, idx, tmp);
    len := |text|;
    assert tmp[..len - 1] == Hex(v);
    TakeConcat(before, tmp, len - 1);
    assert buf[..idx + len - 1] == buf[..idx + len][..idx + len - 1];
    assert before + (Hex(v) + ",") == before + Hex(v) + ",";
  }

  method CopyIn(buf: array<char>, at: nat, s: string)
    requires at + |s| <= buf.Length
    modifies buf
    ensures buf[..at + |s|] == old(buf[..at]) + s
  {
    for i := 0 to |s|
      invariant buf[..at + i] == old(buf[..at]) + s[..i]
    {
      buf[at + i] := s[i];
    }
  }

  lemma TakeConcat(a: string, b: string, n: nat)
    requires n <= |b|
    ensures (a + b)[..|a| + n] == a + b[..n]
  {
  }

  // -------------------------------------------------------------- round trip

  /** One field per value. */
  function HexFields(values: seq<UInt64>): seq<string>
  {
    if values == [] then [] else HexFields(values[..|values| - 1]) + [Hex(values[|values| - 1])]
  }

  lemma NoComma(v: UInt64)
    ensures forall i :: 0 <= i < |Hex(v)| ==> Hex(v)[i] != ','
  {
    HexReadsBack(v);
  }

  lemma FieldEndIs(s: string, i: nat)
    requires i <= |s| && (forall j :: 0 <= j < i ==> s[j] != ',') && (i < |s| ==> s[i] == ',')
    ensures FieldEnd(s) == i
  {
  }

  lemma FirstField(s: string, tail: string)
    ensures FieldEnd(s + "," + tail) == FieldEnd(s)
  {
    var t, i := s + "," + tail, FieldEnd(s);
    assert t[..|s|] == s && t[|s|] == ',';
    forall j | 0 <= j < i ensures t[j] != ',' {
      assert t[j] == s[j];
    }
    FieldEndIs(t, i);
  }

  lemma {:induction false} FieldsSnoc(s: string, field: string)
    requires forall i :: 0 <= i < |field| ==> field[i] != ','
    ensures Fields(s + "," + field) == Fields(s) + [field]
    decreases |s|
  {
    var i := FieldEnd(s);
    if i == |s| {
      LastFieldSnoc(s, field);
    } else {
      FieldsSnoc(s[i + 1..], field);
      FirstFieldSnoc(s, field);
      FieldsCons(s);
      assert [s[..i]] + (Fields(s[i + 1..]) + [field]) == [s[..i]] + Fields(s[i + 1..]) + [field];
    }
  }

  lemma FieldsCons(s: string)
    requires FieldEnd(s) < |s|
    ensures Fields(s) == [s[..FieldEnd(s)]] + Fields(s[FieldEnd(s) + 1..])
  {
  }

  lemma FieldsOne(s: string)
    requires forall i :: 0 <= i < |s| ==> s[i] != ','
    ensures Fields(s) == [s]
  {
    FieldEndIs(s, |s|);
  }

  lemma LastFieldSnoc(s: string, field: string)
    requires FieldEnd(s) == |s| && forall i :: 0 <= i < |field| ==> field[i] != ','
    ensures Fields(s + "," + field) == Fields(s) + [field]
  {
    var t := s + "," + field;
    FirstField(s, field);
    FieldsCons(t);
    FieldsOne(s);
    FieldsOne(field);
    assert t[..|s|] == s && t[|s| + 1..] == field;
  }

  lemma FirstFieldSnoc(s: string, field: string)
    requires FieldEnd(s) < |s|
    ensures var i := FieldEnd(s);
            Fields(s + "," + field) == [s[..i]] + Fields(s[i + 1..] + "," + field)
  {
    var t, i := s + "," + field, FieldEnd(s);
    FirstField(s, field);
    FieldsCons(t);
    assert t[..i] == s[..i] && t[i + 1..] == s[i + 1..] + "," + field;
  }

  lemma {:induction false} FieldsOfPrinted(values: seq<UInt64>)
    requires values != []
    ensures Fields(Printed(values)) == HexFields(values)
    decreases values
  {
    var n := |values| - 1;
    NoComma(values[n]);
    if n == 0 {
      assert HexFields(values[..0]) == [];
      assert FieldEnd(Hex(values[0])) == |Hex(values[0])|;
    } else {
      FieldsOfPrinted(values[..n]);
      FieldsSnoc(Printed(values[..n]), Hex(values[n]));
    }
  }

  lemma {:induction false} HexFieldsAt(values: seq<UInt64>, i: nat)
    requires i < |values|
    ensures |HexFields(values)| == |values| && HexFields(values)[i] == Hex(values[i])
    decreases values
  {
    var n := |values| - 1;
    if n > 0 {
      HexFieldsAt(values[..n], if i < n then i else 0);
    }
  }

  /** What field `k` of a text assigns: nothing when it, or a field before it, is
      overlong, or when it does not parse. */
  function FieldFor(fields: seq<string>, k: nat): Option<UInt64>
    decreases k
  {
    if fields == [] || |fields[0]| > OLC_CONFIG_BIT_NUM then None
    else if k == 0 then ParseHex(fields[0])
    else FieldFor(fields[1..], k - 1)
  }

  lemma {:induction false} FieldForIs(fields: seq<string>, k: nat)
    ensures k < |fields| && (forall j :: 0 <= j <= k ==> |fields[j]| <= OLC_CONFIG_BIT_NUM) ==>
              FieldFor(fields, k) == ParseHex(fields[k])
    ensures !(k < |fields| && forall j :: 0 <= j <= k ==> |fields[j]| <= OLC_CONFIG_BIT_NUM) ==>
              FieldFor(fields, k) == None
    decreases k
  {
    if fields != [] && |fields[0]| <= OLC_CONFIG_BIT_NUM && k > 0 {
      FieldForIs(fields[1..], k - 1);
      if k < |fields| && forall j :: 0 <= j <= k - 1 ==> |fields[1..][j]| <= OLC_CONFIG_BIT_NUM {
        forall j | 0 <= j <= k ensures |fields[j]| <= OLC_CONFIG_BIT_NUM {
          assert j > 0 ==> fields[j] == fields[1..][j - 1];
        }
      }
    }
  }

  /** What parsing does to each mask: a mask is set by its field when that field and
      all before it are short enough and it parses; every other mask keeps its value. */
  lemma {:induction false} AssignedAt(masks: seq<UInt64>, fields: seq<string>, num: nat, i: nat)
    requires |masks| == OLC_CONFIG_NUM_MAX && i < OLC_CONFIG_NUM_MAX
    ensures Assigned(masks, fields, num)[i] ==
            if num <= i && FieldFor(fields, i - num).Some? then FieldFor(fields, i - num).value else masks[i]
    decreases fields
  {
    if num < OLC_CONFIG_NUM_MAX && fields != [] && |fields[0]| <= OLC_CONFIG_BIT_NUM {
      var v := ParseHex(fields[0]);
      AssignedStep(masks, fields, num);
      AssignedAt(if v.Some? then masks[num := v.value] else masks, fields[1..], num + 1, i);
    }
  }

  lemma {:induction false} PrintedFits(values: seq<UInt64>)
    ensures |Printed(values)| <= 17 * |values| && (values != [] ==> |Printed(values)| < 17 * |values|)
    decreases values
  {
    if values != [] {
      var n := |values| - 1;
      Hex64Length(values[n]);
      PrintedFits(values[..n]);
    }
  }

  lemma PrintedFieldFor(values: seq<UInt64>, i: nat)
    requires i < |values|
    ensures FieldFor(HexFields(values), i) == Some(values[i])
  {
    var fields := HexFields(values);
    FieldForIs(fields, i);
    HexFieldsAt(values, i);
    ParsePrinted(values[i]);
    forall k | 0 <= k <= i ensures |fields[k]| <= OLC_CONFIG_BIT_NUM {
      HexFieldsAt(values, k);
      Hex64Length(values[k]);
    }
  }

  lemma PrintedReachesParser(values: seq<UInt64>)
    requires |values| == OLC_CONFIG_NUM_MAX
    ensures Fields(Cut(Printed(values))) == HexFields(values)
  {
    PrintedFits(values);
    FieldsOfPrinted(values);
  }

  lemma HexFieldsAssign(values: seq<UInt64>, before: seq<UInt64>)
    requires |values| == OLC_CONFIG_NUM_MAX && |before| == OLC_CONFIG_NUM_MAX
    ensures Assigned(before, HexFields(values), 0) == values
  {
    var r := Assigned(before, HexFields(values), 0);
    forall i | 0 <= i < OLC_CONFIG_NUM_MAX ensures r[i] == values[i] {
      HexFieldAssigns(values, before, i);
    }
  }

  lemma HexFieldAssigns(values: seq<UInt64>, before: seq<UInt64>, i: nat)
    requires |values| == OLC_CONFIG_NUM_MAX && |before| == OLC_CONFIG_NUM_MAX && i < OLC_CONFIG_NUM_MAX
    ensures Assigned(before, HexFields(values), 0)[i] == values[i]
  {
    PrintedFieldFor(values, i);
    AssignedValue(before, HexFields(values), i, values[i]);
  }

  lemma AssignedValue(masks: seq<UInt64>, fields: seq<string>, i: nat, v: UInt64)
    requires |masks| == OLC_CONFIG_NUM_MAX && i < OLC_CONFIG_NUM_MAX && FieldFor(fields, i) == Some(v)
    ensures Assigned(masks, fields, 0)[i] == v
  {
    AssignedAt(masks, fields, 0, i);
  }

  /** Main theorem: for every sixteen 64-bit masks, parsing the printed text restores
      them exactly, whatever the masks held before. */
  lemma RoundTrip(values: seq<UInt64>, before: seq<UInt64>)
    requires |values| == 16 && |before| == 16
    ensures Assigned(before, Fields(Cut(Printed(values))), 0) == values
  {
    PrintedReachesParser(values);
    HexFieldsAssign(values, before);
  }

  /** A configuration text counts up to 271 characters. */
  lemma CutIs(text: string)
    ensures Cut(text) == if |text| <= 271 then text else text[..271]
  {
  }
}
