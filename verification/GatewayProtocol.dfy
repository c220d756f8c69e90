/** The gateway's line protocol: a two-cursor scanner over a trimmed comma-separated line. */
module GatewayProtocol {
  import opened Basics
  import opened Orders
  import opened Responses

  // ---------- characters ----------

  /** The white space that strings.TrimSpace removes. */
  predicate IsSpace(c: char) {
    var x := c as int;
    || 0x09 <= x <= 0x0D || x == 0x20 || x == 0x85 || x == 0xA0 || x == 0x1680 || 0x2000 <= x <= 0x200A
    || x == 0x2028 || x == 0x2029 || x == 0x202F || x == 0x205F || x == 0x3000
  }

  predicate IsDigit(c: char) {
    '0' <= c <= '9'
  }

  function TrimLeft(s: string): (r: string)
    ensures r == "" || !IsSpace(r[0])
  {
    if s != "" && IsSpace(s[0]) then TrimLeft(s[1..]) else s
  }

  function TrimRight(s: string): (r: string)
    ensures r == "" || !IsSpace(r[|r| - 1])
    ensures |r| <= |s| && r == s[..|r|]
  {
    if s != "" && IsSpace(s[|s| - 1]) then TrimRight(s[..|s| - 1]) else s
  }

  function TrimSpace(s: string): string {
    TrimRight(TrimLeft(s))
  }

  /** Trimming cuts white space, and only that, from both ends, as far as there is any. */
  lemma TrimExactly(s: string) returns (i: nat, j: nat)
    ensures i <= j <= |s| && TrimSpace(s) == s[i..j]
    ensures forall k :: 0 <= k < i || j <= k < |s| ==> IsSpace(s[k])
    ensures i < j ==> !IsSpace(s[i]) && !IsSpace(s[j - 1])
  {
    i := LeftCut(s);
    var n := RightCut(s[i..]);
    j := i + n;
    assert s[i..][..n] == s[i..j];
    assert forall k :: j <= k < |s| ==> s[k] == s[i..][k - i];
  }

  lemma {:induction false} LeftCut(s: string) returns (i: nat)
    ensures i <= |s| && TrimLeft(s) == s[i..] && (i < |s| ==> !IsSpace(s[i]))
    ensures forall k :: 0 <= k < i ==> IsSpace(s[k])
  {
    i := 0;
    if s != "" && IsSpace(s[0]) {
      i := LeftCut(s[1..]);
      assert s[1..][i..] == s[i + 1..];
      assert forall k :: 0 < k <= i ==> s[k] == s[1..][k - 1];
      i := i + 1;
    }
  }

  lemma {:induction false} RightCut(s: string) returns (j: nat)
    ensures j <= |s| && TrimRight(s) == s[..j] && (j > 0 ==> !IsSpace(s[j - 1]))
    ensures forall k :: j <= k < |s| ==> IsSpace(s[k])
  {
    j := |s|;
    if s != "" && IsSpace(s[|s| - 1]) {
      j := RightCut(s[..|s| - 1]);
      assert s[..|s| - 1][..j] == s[..j];
    }
  }

  // ---------- numbers ----------

  predicate AllDigits(s: string) {
    forall i :: 0 <= i < |s| ==> IsDigit(s[i])
  }

  /** The number a string of digits denotes. */
  function Value(s: string): nat
    requires AllDigits(s)
  {
    if s == "" then 0 else 10 * Value(s[..|s| - 1]) + (s[|s| - 1] as int - '0' as int)
  }

  /** strconv.ParseUint in base 10 for values below `bound`. */
  function ParseUint(s: string, bound: nat): (r: Option<nat>)
    ensures r.Some? ==> r.value < bound
  {
    if s != "" && AllDigits(s) && Value(s) < bound then Some(Value(s)) else None
  }

  /** One more than the largest value of field `i`. */
  function Bound(i: nat): nat
    requires i < 7
  {
    if i < 2 then 0x100 else if i < 5 then 0x1_0000_0000 else 0x1_0000_0000_0000_0000
  }

  /** Packet `p` with field `i` set; the fields are in the order of the line. */
  function WithField(p: Packet, i: nat, v: nat): Packet
    requires i < 7 && v < Bound(i)
  {
    match i
    case 0 => p.(kind := v)
    case 1 => p.(side := v)
    case 2 => p.(instrument := v)
    case 3 => p.(trader := v)
    case 4 => p.(quantity := v)
    case 5 => p.(price := v)
    case _ => p.(clientOrderId := v)
  }

  function FieldOf(p: Packet, i: nat): (v: nat)
    requires i < 7
    ensures v < Bound(i)
  {
    match i
    case 0 => p.kind
    case 1 => p.side
    case 2 => p.instrument
    case 3 => p.trader
    case 4 => p.quantity
    case 5 => p.price
    case _ => p.clientOrderId
  }

  // ---------- what the scanner computes ----------

  /** Number of characters before the first comma, or the length. */
  function CommaAt(s: string): (i: nat)
    ensures i <= |s| && (i < |s| ==> s[i] == ',')
    ensures forall k :: 0 <= k < i ==> s[k] != ','
  {
    if s == "" || s[0] == ',' then 0 else 1 + CommaAt(s[1..])
  }

  /** The fields the scanner visits: a trailing comma starts no field. */
  function Fields(s: string): seq<string>
    decreases |s|
  {
    if s == "" then []
    else var i := CommaAt(s); [s[..i]] + if i < |s| then Fields(s[i + 1..]) else []
  }

  /** The packet after assigning fields from index `i` on, and whether all of them were accepted. */
  function Absorb(p: Packet, fields: seq<string>, i: nat): (Packet, bool)
    decreases |fields| - i
  {
    if i >= |fields| then (p, true)
    else if i >= 7 then Absorb(p, fields, i + 1)
    else
      match ParseUint(fields[i], Bound(i))
      case None => (p, false)
      case Some(v) => Absorb(WithField(p, i, v), fields, i + 1)
  }

  /** The inner loop: the first comma at or after `left`, or the end. */
  method FindComma(s: string, left: nat) returns (right: nat)
    requires left <= |s|
    ensures right == left + CommaAt(s[left..])
  {
    right := left;
    while right < |s| && s[right] != ','
      invariant left <= right <= |s|
      invariant forall k :: left <= k < right ==> s[k] != ','
    {
      right := right + 1;
    }
    FirstComma(s, left, right);
  }

  class IngressPacket {
    var kind: UInt8
    var side: UInt8
    var instrument: UInt32
    var trader: UInt32
    var quantity: UInt32
    var price: UInt64
    var clientOrderId: UInt64

    function View(): Packet
      reads this
    {
      Packet(kind, side, instrument, trader, quantity, price, clientOrderId)
    }

    constructor (p: Packet)
      ensures View() == p
    {
      kind, side, instrument, trader, quantity, price, clientOrderId :=
        p.kind, p.side, p.instrument, p.trader, p.quantity, p.price, p.clientOrderId;
    }

    /** Store one field; fields beyond the seventh are ignored without an error. */
    method AssignField(counter: nat, val: string) returns (ok: bool)
      modifies this
      ensures counter >= 7 ==> ok && View() == old(View())
      ensures counter < 7 ==> ok == ParseUint(val, Bound(counter)).Some?
      ensures counter < 7 ==>
                View() == if ok then WithField(old(View()), counter, ParseUint(val, Bound(counter)).value) else old(View())
    {
      if counter >= 7 {
        return true;
      }
      var parsed := ParseUint(val, Bound(counter));
      if parsed.None? {
        return false;
      }
      match counter {
        case 0 => kind := parsed.value;
        case 1 => side := parsed.value;
        case 2 => instrument := parsed.value;
        case 3 => trader := parsed.value;
        case 4 => quantity := parsed.value;
        case 5 => price := parsed.value;
        case _ => clientOrderId := parsed.value;
      }
      ok := true;
    }

    /** One round of the outer loop: find the end of the field and assign it. */
    method ScanField(s: string, left: nat, counter: nat, ghost fields: seq<string>) returns (right: nat, ok: bool)
      requires left < |s| && counter <= |fields| && fields[counter..] == FieldsFrom(s, left)
      modifies this
      ensures left < right <= |s| + 1 && counter < |fields| && fields[counter + 1..] == FieldsFrom(s, right)
      ensures Absorb(old(View()), fields, counter) == if ok then Absorb(View(), fields, counter + 1) else (View(), false)
    {
      right := FindComma(s, left);
      FieldStep(s, left, right, fields, counter);
      ok := AssignField(counter, s[left..right]);
      right := right + 1;
    }

    /** The outer loop over a trimmed line. On an error the fields before it stay assigned. */
    method Scan(s: string) returns (ok: bool)
      modifies this
      ensures (View(), ok) == Scanned(old(View()), Fields(s))
    {
      ghost var start, fields := View(), Fields(s);
      var left, counter := 0, 0;
      assert s[0..] == s;
      while left < |s|
        invariant counter <= |fields| && fields[counter..] == FieldsFrom(s, left)
        invariant Absorb(start, fields, 0) == Absorb(View(), fields, counter)
        decreases |s| + 1 - left
      {
        var right, accepted := ScanField(s, left, counter, fields);
        if !accepted {
          return false;
        }
        left := right;
        counter := counter + 1;
      }
      ok := counter == 7;
    }

    /** Parse a line into this packet. */
    method ParseCSV(line: string) returns (ok: bool)
      modifies this
      ensures (View(), ok) == Scanned(old(View()), Fields(TrimSpace(line)))
    {
      ok := Scan(TrimSpace(line));
    }
  }

  /** The packet and the verdict of scanning these fields into packet `p`. */
  function Scanned(p: Packet, fields: seq<string>): (Packet, bool) {
    var r := Absorb(p, fields, 0);
    (r.0, r.1 && |fields| == 7)
  }

  /** The fields from position `left` on; the scanner's cursor may stand one past the end. */
  function FieldsFrom(s: string, left: nat): seq<string> {
    if left < |s| then Fields(s[left..]) else []
  }

  /** From one field start to the next. */
  lemma FieldStep(s: string, left: nat, right: nat, fields: seq<string>, counter: nat)
    requires left < |s| && right == left + CommaAt(s[left..])
    requires counter <= |fields| && fields[counter..] == FieldsFrom(s, left)
    ensures counter < |fields| && fields[counter] == s[left..right]
    ensures fields[counter + 1..] == FieldsFrom(s, right + 1)
  {
    var t := s[left..];
    assert t[..right - left] == s[left..right];
    assert right < |s| ==> t[right - left + 1..] == s[right + 1..];
    assert fields[counter..] == [s[left..right]] + FieldsFrom(s, right + 1);
    assert fields[counter] == fields[counter..][0];
    assert fields[counter + 1..] == fields[counter..][1..];
  }

  lemma FirstComma(s: string, left: nat, right: nat)
    requires left <= right <= |s| && (right < |s| ==> s[right] == ',')
    requires forall k :: left <= k < right ==> s[k] != ','
    ensures right == left + CommaAt(s[left..])
  {
    var i := CommaAt(s[left..]);
    assert i < |s| - left ==> s[left..][i] == s[left + i];
    assert forall k :: 0 <= k < i ==> s[left..][k] == s[left + k];
  }

  // ---------- the split-based specification ----------

  /** The line cut at every comma. */
  function Split(s: string): (parts: seq<string>)
    ensures parts != []
    decreases |s|
  {
    var i := CommaAt(s);
    if i < |s| then [s[..i]] + Split(s[i + 1..]) else [s]
  }

  function Join(parts: seq<string>): string
    requires parts != []
  {
    if |parts| == 1 then parts[0] else parts[0] + "," + Join(parts[1..])
  }

  predicate NoComma(s: string) {
    forall i :: 0 <= i < |s| ==> s[i] != ','
  }

  /** Split is the inverse of Join on parts without commas. */
  lemma SplitJoin(s: string)
    ensures Join(Split(s)) == s && forall i :: 0 <= i < |Split(s)| ==> NoComma(Split(s)[i])
  {
    JoinOfSplit(s);
    SplitParts(s);
  }

  lemma {:induction false} JoinOfSplit(s: string)
    ensures Join(Split(s)) == s
    decreases |s|
  {
    var i := CommaAt(s);
    if i < |s| {
      JoinOfSplit(s[i + 1..]);
      JoinCons(s[..i], Split(s[i + 1..]));
      assert s == s[..i] + "," + s[i + 1..];
    }
  }

  lemma {:induction false} SplitParts(s: string)
    ensures forall k :: 0 <= k < |Split(s)| ==> NoComma(Split(s)[k])
    decreases |s|
  {
    var i := CommaAt(s);
    if i < |s| {
      SplitParts(s[i + 1..]);
      assert NoComma(s[..i]);
    }
  }

  lemma JoinCons(first: string, rest: seq<string>)
    requires rest != []
    ensures Join([first] + rest) == first + "," + Join(rest)
  {
    assert ([first] + rest)[1..] == rest;
  }

  /** Without the last part if that is empty. */
  function DropEmptyEnd(parts: seq<string>): seq<string>
    requires parts != []
  {
    if parts[|parts| - 1] == "" then parts[..|parts| - 1] else parts
  }

  lemma DropCons(first: string, rest: seq<string>)
    requires rest != []
    ensures DropEmptyEnd([first] + rest) == [first] + DropEmptyEnd(rest)
  {
    assert ([first] + rest)[|rest|] == rest[|rest| - 1];
    assert ([first] + rest)[..|rest|] == [first] + rest[..|rest| - 1];
  }

  /** The scanner's fields are the parts of the line without one optional trailing comma. */
  lemma {:induction false} FieldsAreSplit(s: string)
    ensures Fields(s) == DropEmptyEnd(Split(s))
    decreases |s|
  {
    var i := CommaAt(s);
    if i < |s| {
      FieldsAreSplit(s[i + 1..]);
      DropCons(s[..i], Split(s[i + 1..]));
    } else {
      assert s[..i] == s;
      assert Split(s) == [s];
    }
  }

  /** The trimmed line holds exactly seven decimal numbers, each within the range of its field. */
  predicate WellFormed(fields: seq<string>) {
    |fields| == 7 && forall i :: 0 <= i < 7 ==> Numeral(fields[i]) && Value(fields[i]) < Bound(i)
  }

  predicate Numeral(s: string) {
    s != "" && forall i :: 0 <= i < |s| ==> '0' <= s[i] <= '9'
  }

  /** From field `i` on: success is well-formedness of the rest, and then those fields get their values and the others stay. */
  lemma {:induction false} AbsorbExactly(p: Packet, fields: seq<string>, i: nat)
    requires |fields| == 7 && i <= 7
    ensures Absorb(p, fields, i).1 <==> forall k :: i <= k < 7 ==> ParseUint(fields[k], Bound(k)).Some?
    ensures Absorb(p, fields, i).1 ==> forall k :: 0 <= k < 7 ==>
              FieldOf(Absorb(p, fields, i).0, k) == if k < i then FieldOf(p, k) else ParseUint(fields[k], Bound(k)).value
    decreases 7 - i
  {
    if i < 7 && ParseUint(fields[i], Bound(i)).Some? {
      AbsorbExactly(WithField(p, i, ParseUint(fields[i], Bound(i)).value), fields, i + 1);
    }
  }

  /**
   ParseCSV succeeds exactly on lines whose trimmed text, minus one optional trailing comma,
   splits into seven in-range decimal numbers; and then every field has its number, whatever
   the packet held before.
   */
  lemma ParsesExactly(p: Packet, line: string)
    ensures var fields := DropEmptyEnd(Split(TrimSpace(line)));
            var (q, ok) := Scanned(p, Fields(TrimSpace(line)));
            && (ok <==> WellFormed(fields))
            && (ok ==> forall k :: 0 <= k < 7 ==> FieldOf(q, k) == Value(fields[k]))
  {
    FieldsAreSplit(TrimSpace(line));
    var fields := Fields(TrimSpace(line));
    if |fields| == 7 { AbsorbExactly(p, fields, 0); }
  }

  // ---------- printing ----------

  function Decimal(n: nat): (s: string)
    ensures s != "" && AllDigits(s)
  {
    if n < 10 then [('0' as int + n) as char] else Decimal(n / 10) + [('0' as int + n % 10) as char]
  }

  lemma {:induction false} DecimalValue(n: nat)
    ensures Value(Decimal(n)) == n
  {
    if n >= 10 {
      DecimalValue(n / 10);
      var s := Decimal(n);
      assert s[..|s| - 1] == Decimal(n / 10);
    } else {
      assert Decimal(n)[..0] == "";
    }
  }

  /** A packet as the seven numbers of a line. */
  function Numbers(p: Packet): (r: seq<string>)
    ensures |r| == 7 && forall i :: 0 <= i < 7 ==> r[i] == Decimal(FieldOf(p, i))
  {
    [Decimal(p.kind), Decimal(p.side), Decimal(p.instrument), Decimal(p.trader), Decimal(p.quantity), Decimal(p.price),
     Decimal(p.clientOrderId)]
  }

  function Print(p: Packet): string {
    Join(Numbers(p)) + "\n"
  }

  lemma JoinStep(first: string, rest: string)
    requires NoComma(first)
    ensures var s := first + "," + rest;
            s[..|first|] == first && s[|first| + 1..] == rest && CommaAt(s) == |first|
  {
    var s := first + "," + rest;
    FirstComma(s, 0, |first|);
    assert s[0..] == s;
  }

  lemma {:induction false} SplitOfJoin(parts: seq<string>)
    requires parts != [] && forall i :: 0 <= i < |parts| ==> NoComma(parts[i])
    ensures Split(Join(parts)) == parts
  {
    if |parts| == 1 {
      FirstComma(parts[0], 0, |parts[0]|);
      assert parts[0][0..] == parts[0];
    } else {
      SplitOfJoin(parts[1..]);
      JoinStep(parts[0], Join(parts[1..]));
      assert parts == [parts[0]] + parts[1..];
    }
  }

  lemma {:induction false} JoinEnds(parts: seq<string>)
    requires parts != [] && forall i :: 0 <= i < |parts| ==> parts[i] != "" && AllDigits(parts[i])
    ensures var s := Join(parts);
            s != "" && IsDigit(s[0]) && IsDigit(s[|s| - 1])
  {
    if |parts| > 1 { JoinEnds(parts[1..]); }
  }

  /** The code points with the Unicode property White_Space. */
  const WHITE_SPACE: set<int> :=
    {0x09, 0x0A, 0x0B, 0x0C, 0x0D, 0x20, 0x85, 0xA0, 0x1680, 0x2000, 0x2001, 0x2002, 0x2003, 0x2004, 0x2005, 0x2006,
     0x2007, 0x2008, 0x2009, 0x200A, 0x2028, 0x2029, 0x202F, 0x205F, 0x3000}

  ghost predicate Padding(s: string) {
    forall i :: 0 <= i < |s| ==> s[i] as int in WHITE_SPACE
  }

  lemma {:induction false} TrimLeftPadding(pad: string, s: string)
    requires Padding(pad) && s != "" && !IsSpace(s[0])
    ensures TrimLeft(pad + s) == s
  {
    if pad == "" {
      assert pad + s == s;
    } else {
      assert pad[0] as int in WHITE_SPACE && (pad + s)[0] == pad[0];
      assert (pad + s)[1..] == pad[1..] + s;
      TrimLeftPadding(pad[1..], s);
    }
  }

  lemma {:induction false} TrimRightPadding(s: string, pad: string)
    requires Padding(pad) && s != "" && !IsSpace(s[|s| - 1])
    ensures TrimRight(s + pad) == s
  {
    if pad == "" {
      assert s + pad == s;
    } else {
      var n := |pad| - 1;
      assert pad[n] as int in WHITE_SPACE && (s + pad)[|s + pad| - 1] == pad[n];
      assert (s + pad)[..|s + pad| - 1] == s + pad[..n];
      TrimRightPadding(s, pad[..n]);
    }
  }

  lemma TrimPadded(lead: string, s: string, tail: string)
    requires Padding(lead) && Padding(tail) && s != "" && !IsSpace(s[0]) && !IsSpace(s[|s| - 1])
    ensures TrimSpace(lead + s + tail) == s
  {
    assert lead + s + tail == lead + (s + tail);
    TrimLeftPadding(lead, s + tail);
    TrimRightPadding(s, tail);
  }

  lemma PaddedFields(p: Packet, lead: string, tail: string)
    requires Padding(lead) && Padding(tail)
    ensures Fields(TrimSpace(lead + Join(Numbers(p)) + tail)) == Numbers(p)
  {
    var parts := Numbers(p);
    JoinEnds(parts);
    TrimPadded(lead, Join(parts), tail);
    assert forall i :: 0 <= i < |parts| ==> NoComma(parts[i]);
    SplitOfJoin(parts);
    FieldsAreSplit(Join(parts));
  }

  /** Every packet, printed as seven comma-separated decimals between any white space, parses back to itself. */
  lemma PaddedRoundTrip(p: Packet, before: Packet, lead: string, tail: string)
    requires Padding(lead) && Padding(tail)
    ensures Scanned(before, Fields(TrimSpace(lead + Join(Numbers(p)) + tail))) == (p, true)
  {
    PaddedFields(p, lead, tail);
    var parts := Numbers(p);
    forall i | 0 <= i < 7
      ensures ParseUint(parts[i], Bound(i)) == Some(FieldOf(p, i))
    {
      DecimalValue(FieldOf(p, i));
    }
    AbsorbExactly(before, parts, 0);
    SameFields(Absorb(before, parts, 0).0, p);
  }

  /** In particular, followed by a newline. */
  lemma RoundTrip(p: Packet, before: Packet)
    ensures Scanned(before, Fields(TrimSpace(Print(p)))) == (p, true)
  {
    PaddedRoundTrip(p, before, "", "\n");
    assert "" + Join(Numbers(p)) + "\n" == Print(p);
  }

  lemma SomeDecimals()
    ensures Decimal(0) == "0" && Decimal(1) == "1" && Decimal(10) == "10" && Decimal(101) == "101"
    ensures Decimal(1000) == "1000"
  {
    assert Decimal(10) == Decimal(1) + "0";
    assert Decimal(100) == Decimal(10) + "0";
    assert Decimal(101) == Decimal(10) + "1";
    assert Decimal(1000) == Decimal(100) + "0";
  }

  /** For one, the client's buy line: its parts are kind, side, instrument, trader, quantity, price and order id. */
  lemma ClientLine(before: Packet, id: UInt64)
    ensures Scanned(before, Fields(TrimSpace(Join(["1", "0", "1", "101", "10", "1000", Decimal(id)]) + "\n"))) ==
            (Packet(1, 0, 1, 101, 10, 1000, id), true)
  {
    var p := Packet(1, 0, 1, 101, 10, 1000, id);
    SomeDecimals();
    assert Numbers(p) == ["1", "0", "1", "101", "10", "1000", Decimal(id)];
    RoundTrip(p, before);
  }

  lemma SameFields(a: Packet, b: Packet)
    requires forall k :: 0 <= k < 7 ==> FieldOf(a, k) == FieldOf(b, k)
    ensures a == b
  {
    assert FieldOf(a, 0) == FieldOf(b, 0) && FieldOf(a, 1) == FieldOf(b, 1) && FieldOf(a, 2) == FieldOf(b, 2);
    assert FieldOf(a, 3) == FieldOf(b, 3) && FieldOf(a, 4) == FieldOf(b, 4) && FieldOf(a, 5) == FieldOf(b, 5);
    assert FieldOf(a, 6) == FieldOf(b, 6);
  }
}
