/**
 * The shared helpers of the backend: the response envelope, the admin gate,
 * ObjectId parsing and the stand-alone shipping-cost table.
 */
module Helper {
  import opened Common

  // ---------------------------------------------------------------------
  // Response envelope and admin gate
  // ---------------------------------------------------------------------

  datatype Response = Response(status: int, success: bool, message: string)

  /** Every reply carries a `success` flag derived from its status code alone. */
  function SendResponse(status: int, message: string): (r: Response)
    ensures r.status == status && r.message == message
    ensures r.success <==> 200 <= status < 300
  {
    Response(status, 200 <= status < 300, message)
  }

  /** The part of the authenticated caller the gates look at. */
  datatype Caller = Caller(id: Id, role: string)

  const AdminRole := "Admin"
  const SalesPersonRole := "SalesPerson"

  /** The `admin` middleware: only Admin and SalesPerson callers get through. */
  function AdminGate(caller: Option<Caller>): (r: Result<Caller>)
    ensures r.Ok? <==> caller.Some? && caller.value.role in {AdminRole, SalesPersonRole}
    ensures r.Ok? ==> r.value == caller.value
    ensures r.Err? ==> r.status == 403 && !SendResponse(r.status, r.message).success
  {
    if caller.None? || (caller.value.role != AdminRole && caller.value.role != SalesPersonRole) then
      Err(403, "Access denied. Admins and Sales Persons only.")
    else
      Ok(caller.value)
  }

  // ---------------------------------------------------------------------
  // ObjectId parsing
  // ---------------------------------------------------------------------

  predicate IsHexDigit(c: char)
  {
    '0' <= c <= '9' || 'a' <= c <= 'f' || 'A' <= c <= 'F'
  }

  function HexValue(c: char): (v: nat)
    requires IsHexDigit(c)
    ensures v < 16
  {
    if '0' <= c <= '9' then c as int - '0' as int
    else if 'a' <= c <= 'f' then c as int - 'a' as int + 10
    else c as int - 'A' as int + 10
  }

  function HexDigit(v: nat): (c: char)
    requires v < 16
    ensures IsHexDigit(c) && HexValue(c) == v
  {
    if v < 10 then ('0' as int + v) as char else ('a' as int + v - 10) as char
  }

  /** The number a string of hex digits spells, most significant digit first. */
  function ParseHex(s: string): nat
    requires forall i :: 0 <= i < |s| ==> IsHexDigit(s[i])
  {
    if s == [] then 0 else ParseHex(s[..|s| - 1]) * 16 + HexValue(s[|s| - 1])
  }

  function Pow16(n: nat): (p: nat)
    ensures p >= 1
  {
    if n == 0 then 1 else 16 * Pow16(n - 1)
  }

  /** `ObjectId.toString()`: `width` lower-case hex digits, most significant first. */
  function FormatHex(v: nat, width: nat): (s: string)
    ensures |s| == width
    ensures forall i :: 0 <= i < |s| ==> IsHexDigit(s[i])
  {
    if width == 0 then [] else FormatHex(v / 16, width - 1) + [HexDigit(v % 16)]
  }

  const ObjectIdDigits := 24

  predicate IsObjectIdString(s: string)
  {
    |s| == ObjectIdDigits && forall i :: 0 <= i < |s| ==> IsHexDigit(s[i])
  }

  /**
   * `getMongoId`: a missing or empty argument, or one that is not an ObjectId
   * string, yields null; otherwise the id it spells.
   */
  function GetMongoId(s: Option<string>): (r: Option<Id>)
    ensures s.None? || s == Some([]) ==> r.None?
    ensures r.Some? <==> s.Some? && IsObjectIdString(s.value)
  {
    if s.None? || s.value == [] then None
    else if IsObjectIdString(s.value) then Some(ParseHex(s.value))
    else None
  }

  lemma {:induction false} ParseFormatHex(v: nat, width: nat)
    requires v < Pow16(width)
    ensures ParseHex(FormatHex(v, width)) == v
  {
    if width > 0 {
      var s := FormatHex(v, width);
      ParseFormatHex(v / 16, width - 1);
      assert s[..|s| - 1] == FormatHex(v / 16, width - 1);
    }
  }

  /** Printing an id and reading it back with `getMongoId` gives the same id. */
  lemma MongoIdRoundTrip(id: Id)
    requires id < Pow16(ObjectIdDigits)
    ensures GetMongoId(Some(FormatHex(id, ObjectIdDigits))) == Some(id)
  {
    ParseFormatHex(id, ObjectIdDigits);
  }

  /** Reading a string of lower-case hex digits and printing it back at its width gives the string. */
  lemma {:induction false} FormatParseHex(s: string)
    requires forall i :: 0 <= i < |s| ==> IsHexDigit(s[i]) && !('A' <= s[i] <= 'F')
    ensures FormatHex(ParseHex(s), |s|) == s
    decreases |s|
  {
    if s != [] {
      var init := s[..|s| - 1];
      FormatParseHex(init);
      var v := ParseHex(s);
      assert v / 16 == ParseHex(init) && v % 16 == HexValue(s[|s| - 1]);
      assert s == init + [s[|s| - 1]];
    }
  }

  /** `ObjectId.toString()`: 24 lower-case hex digits. */
  function IdString(id: Id): (s: string)
    ensures |s| == ObjectIdDigits
  {
    FormatHex(id, ObjectIdDigits)
  }

  /** The first position whose id prints as the given string. */
  function FirstPrinted(ids: seq<Id>, s: string): (r: Option<nat>)
    ensures r.Some? ==> r.value < |ids| && IdString(ids[r.value]) == s
    ensures r.Some? ==> forall j :: 0 <= j < r.value ==> IdString(ids[j]) != s
    ensures r.None? ==> forall j :: 0 <= j < |ids| ==> IdString(ids[j]) != s
    decreases |ids|
  {
    if ids == [] then None
    else if IdString(ids[0]) == s then Some(0)
    else
      var r := FirstPrinted(ids[1..], s);
      if r.None? then None else Some(r.value + 1)
  }

  /** A string of `n` hex digits spells a number below 16^n. */
  lemma {:induction false} ParseHexBound(s: string)
    requires forall i :: 0 <= i < |s| ==> IsHexDigit(s[i])
    ensures ParseHex(s) < Pow16(|s|)
    decreases |s|
  {
    if s != [] {
      ParseHexBound(s[..|s| - 1]);
    }
  }

  /** An ObjectId has 96 bits. */
  lemma ObjectIdRange()
    ensures Pow16(ObjectIdDigits) == 0x1_0000_0000_0000_0000_0000_0000
  {
    assert Pow16(4) == 0x1_0000;
    assert Pow16(8) == 0x1_0000_0000;
    assert Pow16(12) == 0x1_0000_0000_0000;
    assert Pow16(16) == 0x1_0000_0000_0000_0000;
    assert Pow16(20) == 0x1_0000_0000_0000_0000_0000;
  }

  /** Two ObjectIds that print alike are the same id. */
  lemma PrintedInjective(a: Id, b: Id)
    requires a < Pow16(ObjectIdDigits) && b < Pow16(ObjectIdDigits)
    ensures IdString(a) == IdString(b) ==> a == b
  {
    ParseFormatHex(a, ObjectIdDigits);
    ParseFormatHex(b, ObjectIdDigits);
  }

  /** Among ObjectIds, the first entry printing as the id at `k` is `k` itself when no earlier entry is that id. */
  lemma FirstPrintedAt(ids: seq<Id>, k: nat)
    requires k < |ids|
    requires forall j :: 0 <= j <= k ==> ids[j] < Pow16(ObjectIdDigits)
    requires forall j :: 0 <= j < k ==> ids[j] != ids[k]
    ensures FirstPrinted(ids, IdString(ids[k])) == Some(k)
  {
    var r := FirstPrinted(ids, IdString(ids[k]));
    if r.Some? && r.value < k {
      PrintedInjective(ids[r.value], ids[k]);
    }
  }

  /** `FormatHex` prints only lower-case digits. */
  lemma {:induction false} FormatHexLowercase(v: nat, width: nat, i: nat)
    requires i < width
    ensures !('A' <= FormatHex(v, width)[i] <= 'F')
    decreases width
  {
    if i < width - 1 {
      FormatHexLowercase(v / 16, width - 1, i);
    }
  }

  // ---------------------------------------------------------------------
  // getShippingCost
  // ---------------------------------------------------------------------

  const GroundAliases: set<string> := {"ground", "upsground", "groundups", "groundshipping", "standard"}
  const OvernightAliases: set<string> := {"overnight", "overnite", "upsovernight", "upsovernite", "nextday"}

  /** The lookup key of a method name: lower-cased with all white space removed. */
  function MethodKey(via: Option<string>): (k: string)
    ensures forall i :: 0 <= i < |k| ==> !IsSpace(k[i]) && !('A' <= k[i] <= 'Z')
  {
    var k := RemoveSpaces(Lower(via.GetOr("")));
    assert forall i :: 0 <= i < |Lower(via.GetOr(""))| ==> !('A' <= Lower(via.GetOr(""))[i] <= 'Z');
    RemoveSpacesKeepsLower(Lower(via.GetOr("")));
    k
  }

  lemma {:induction false} RemoveSpacesKeepsLower(s: string)
    requires forall i :: 0 <= i < |s| ==> !('A' <= s[i] <= 'Z')
    ensures forall i :: 0 <= i < |RemoveSpaces(s)| ==> !('A' <= RemoveSpaces(s)[i] <= 'Z')
  {
    if s != [] {
      RemoveSpacesKeepsLower(s[1..]);
    }
  }

  /** The step above 500: one more step for every started 150 beyond 500. */
  function Increments(amt: real): int
  {
    ((amt - 500.0) / 150.0).Floor + 1
  }

  /** The ground schedule of `getShippingCost`, for a positive amount. */
  function GroundCost(amt: real): (fee: real)
    requires amt > 0.0
  {
    if amt <= 50.0 then 10.0
    else if amt <= 250.0 then 20.0
    else if amt <= 499.0 then 30.0
    else 30.0 + (Increments(amt) * 10) as real
  }

  /** The overnight schedule of `getShippingCost`, for a positive amount. */
  function OvernightCost(amt: real): (fee: real)
    requires amt > 0.0
  {
    if amt <= 50.0 then 20.0
    else if amt <= 250.0 then 30.0
    else if amt <= 499.0 then 40.0
    else 40.0 + (Increments(amt) * 15) as real
  }

  /**
   * `getShippingCost(via, amount)`. The amount is `Number(amount)`, None
   * when that is not a number (NaN, which `|| 0` turns into 0).
   */
  function ShippingCost(via: Option<string>, amount: Option<real>): (fee: real)
    ensures amount.None? || amount.value <= 0.0 ==> fee == 0.0
    ensures amount.Some? && amount.value > 0.0 && MethodKey(via) in GroundAliases ==> fee == GroundCost(amount.value)
    ensures amount.Some? && amount.value > 0.0 && MethodKey(via) in OvernightAliases ==> fee == OvernightCost(amount.value)
    ensures MethodKey(via) !in GroundAliases + OvernightAliases ==> fee == 0.0
  {
    var amt := amount.GetOr(0.0);
    if amt <= 0.0 then 0.0
    else
      var key := MethodKey(via);
      if key in GroundAliases then GroundCost(amt)
      else if key in OvernightAliases then OvernightCost(amt)
      else 0.0
  }

  /** Both schedules charge at least 10 for any positive amount; so a fee is due exactly for a known method and a positive amount. */
  lemma ShippingCostPositive(via: Option<string>, amount: Option<real>)
    ensures ShippingCost(via, amount) > 0.0 <==>
      amount.Some? && amount.value > 0.0 && MethodKey(via) in GroundAliases + OvernightAliases
  {
    if amount.Some? && amount.value > 499.0 {
      IncrementsFacts(amount.value, amount.value);
    }
  }

  lemma FloorMonotone(x: real, y: real)
    requires x <= y
    ensures x.Floor <= y.Floor
  {
  }

  lemma IncrementsFacts(a: real, b: real)
    requires 499.0 < a <= b
    ensures 0 <= Increments(a) <= Increments(b)
  {
    FloorMonotone((a - 500.0) / 150.0, (b - 500.0) / 150.0);
  }

  lemma GroundMonotone(a: real, b: real)
    requires 0.0 < a <= b
    ensures GroundCost(a) <= GroundCost(b)
  {
    if a > 499.0 {
      IncrementsFacts(a, b);
    } else if b > 499.0 {
      IncrementsFacts(b, b);
    }
  }

  lemma OvernightMonotone(a: real, b: real)
    requires 0.0 < a <= b
    ensures OvernightCost(a) <= OvernightCost(b)
  {
    if a > 499.0 {
      IncrementsFacts(a, b);
    } else if b > 499.0 {
      IncrementsFacts(b, b);
    }
  }

  /** A larger order never ships for less, whatever the method. */
  lemma ShippingCostMonotone(via: Option<string>, a: real, b: real)
    requires 0.0 < a <= b
    ensures ShippingCost(via, Some(a)) <= ShippingCost(via, Some(b))
  {
    GroundMonotone(a, b);
    OvernightMonotone(a, b);
  }

  lemma {:induction false} RemoveSpacesAppend(a: string, b: string)
    ensures RemoveSpaces(a + b) == RemoveSpaces(a) + RemoveSpaces(b)
  {
    if a != [] {
      assert (a + b)[0] == a[0];
      assert (a + b)[1..] == a[1..] + b;
      RemoveSpacesAppend(a[1..], b);
    } else {
      assert a + b == b;
    }
  }

  /** The key of a name that is already lower-case and space-free is the name itself. */
  lemma KeyOfPlainName(name: string)
    requires forall i :: 0 <= i < |name| ==> !IsSpace(name[i]) && !('A' <= name[i] <= 'Z')
    ensures MethodKey(Some(name)) == name
  {
    LowerOfLower(name);
    RemoveSpacesOfSpaceFree(name);
  }

  /** For the same positive amount, overnight costs at least 10 more than ground. */
  lemma OvernightCostsMore(a: real)
    requires a > 0.0
    ensures OvernightCost(a) >= GroundCost(a) + 10.0
  {
    if a > 499.0 {
      IncrementsFacts(a, a);
    }
  }

  /** Spelling variants that differ only in case and white space cost the same. */
  lemma ShippingCostIgnoresCaseAndSpaces(via: string, amount: Option<real>)
    ensures ShippingCost(Some(MethodKey(Some(via))), amount) == ShippingCost(Some(via), amount)
  {
    KeyOfPlainName(MethodKey(Some(via)));
  }

  lemma LowerOfLower(s: string)
    requires forall i :: 0 <= i < |s| ==> !('A' <= s[i] <= 'Z')
    ensures Lower(s) == s
  {
  }

  lemma {:induction false} RemoveSpacesOfSpaceFree(s: string)
    requires forall i :: 0 <= i < |s| ==> !IsSpace(s[i])
    ensures RemoveSpaces(s) == s
  {
    if s != [] {
      RemoveSpacesOfSpaceFree(s[1..]);
    }
  }

  lemma ScheduleExamples()
    ensures GroundCost(30.0) == 10.0 && GroundCost(100.0) == 20.0
    ensures GroundCost(300.0) == 30.0 && GroundCost(600.0) == 40.0
    ensures OvernightCost(30.0) == 20.0 && OvernightCost(100.0) == 30.0
    ensures OvernightCost(300.0) == 40.0 && OvernightCost(600.0) == 55.0
  {
    assert (100.0 / 150.0).Floor == 0;
  }

  lemma AliasClasses()
    ensures "ground" in GroundAliases && "upsground" in GroundAliases
    ensures "overnight" !in GroundAliases && "overnight" in OvernightAliases
    ensures "unknown" !in GroundAliases + OvernightAliases
    ensures "" !in GroundAliases + OvernightAliases
  {
  }

  /** The worked values the project's unit tests assert for "ground". */
  lemma GroundExamples()
    ensures ShippingCost(Some("ground"), Some(30.0)) == 10.0
    ensures ShippingCost(Some("ground"), Some(100.0)) == 20.0
    ensures ShippingCost(Some("ground"), Some(300.0)) == 30.0
    ensures ShippingCost(Some("ground"), Some(600.0)) == 40.0
    ensures ShippingCost(Some("ground"), Some(0.0)) == 0.0
    ensures ShippingCost(Some("ground"), Some(-10.0)) == 0.0
  {
    ScheduleExamples();
    KeyOfPlainName("ground");
    AliasClasses();
  }

  /** The worked values the project's unit tests assert for "overnight". */
  lemma OvernightExamples()
    ensures ShippingCost(Some("overnight"), Some(30.0)) == 20.0
    ensures ShippingCost(Some("overnight"), Some(100.0)) == 30.0
    ensures ShippingCost(Some("overnight"), Some(300.0)) == 40.0
    ensures ShippingCost(Some("overnight"), Some(600.0)) == 55.0
  {
    ScheduleExamples();
    KeyOfPlainName("overnight");
    AliasClasses();
  }

  /** An unknown or missing method ships for free. */
  lemma UnknownMethodExamples()
    ensures ShippingCost(Some("unknown"), Some(100.0)) == 0.0
    ensures ShippingCost(None, Some(100.0)) == 0.0
  {
    KeyOfPlainName("unknown");
    KeyOfPlainName("");
    AliasClasses();
  }

  lemma GroundIsPlain()
    ensures RemoveSpaces("ground") == "ground" && RemoveSpaces("ups") == "ups"
  {
    GroundHasNoSpace();
    UpsHasNoSpace();
  }

  lemma UpsHasNoSpace()
    ensures RemoveSpaces("ups") == "ups"
  {
    assert !IsSpace('u') && !IsSpace('p') && !IsSpace('s');
  }

  lemma GroundHasNoSpace()
    ensures RemoveSpaces("ground") == "ground"
  {
    assert !IsSpace('g') && !IsSpace('r') && !IsSpace('o') && !IsSpace('u') && !IsSpace('n') && !IsSpace('d');
  }

  lemma SpaceThenGround()
    ensures RemoveSpaces(" " + "ground") == "ground"
  {
    assert (" " + "ground")[1..] == "ground";
    GroundIsPlain();
  }

  lemma UpsSpaceGround()
    ensures RemoveSpaces("ups" + (" " + "ground")) == RemoveSpaces("ups") + RemoveSpaces(" " + "ground")
  {
    RemoveSpacesAppend("ups", " " + "ground");
  }

  lemma LowerUpsGround()
    ensures Lower("UPS Ground") == "ups" + (" " + "ground")
  {
  }

  lemma UpsPlusGround()
    ensures "ups" + "ground" == "upsground"
  {
  }

  lemma UpsGroundKey()
    ensures MethodKey(Some("UPS Ground")) == "upsground"
  {
    UpsPlusGround();
    LowerUpsGround();
    UpsSpaceGround();
    SpaceThenGround();
    GroundIsPlain();
  }

  lemma UpperGroundKey()
    ensures MethodKey(Some("GROUND")) == "ground"
  {
    assert Lower("GROUND") == "ground";
    GroundIsPlain();
  }

  lemma PaddingSplits()
    ensures RemoveSpaces("  " + ("ground" + "  ")) == RemoveSpaces("  ") + RemoveSpaces("ground" + "  ")
    ensures RemoveSpaces("ground" + "  ") == RemoveSpaces("ground") + RemoveSpaces("  ")
  {
    RemoveSpacesAppend("  ", "ground" + "  ");
    RemoveSpacesAppend("ground", "  ");
  }

  lemma PaddedGroundKey()
    ensures MethodKey(Some("  ground  ")) == "ground"
  {
    assert Lower("  ground  ") == "  " + ("ground" + "  ");
    PaddingSplits();
    GroundIsPlain();
    assert AllSpace("  ");
  }

  /** Case and white space do not matter ("UPS Ground", "GROUND", "  ground  "). */
  lemma SpellingExamples()
    ensures ShippingCost(Some("UPS Ground"), Some(600.0)) == 40.0
    ensures ShippingCost(Some("GROUND"), Some(100.0)) == 20.0
    ensures ShippingCost(Some("  ground  "), Some(100.0)) == 20.0
  {
    UpsGroundKey();
    UpperGroundKey();
    PaddedGroundKey();
    AliasClasses();
    ScheduleExamples();
  }
}
