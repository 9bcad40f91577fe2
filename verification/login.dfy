/**
 * The user-directory helpers of user_login.py: allocating the next
 * four-digit user id and finding a user by name. The directory is given as
 * the list of metadata records it holds.
 */
module UserLogin {
  import opened Wrappers
  import opened Text

  const StartId: int := 1000
  const MaxId: int := 9999

  /** A metadata field's value. */
  datatype Value = Str(s: string) | Int(i: int)

  /** One stored metadata entry: a dict of fields, or `None`. */
  datatype Metadata = Fields(fields: map<string, Value>) | NoMetadata

  datatype LoginError =
    | IdLimitReached   // `st.error("User ID limit reached.")` then `st.stop()`
    | AttributeError   // `.get` on `None`, or `.strip` on a non-string name

  // ---------------------------------------------------------------------
  // Decimal text
  // ---------------------------------------------------------------------

  predicate IsDigit(c: char) { '0' <= c <= '9' }

  predicate AllDigits(s: string)
  {
    forall k :: 0 <= k < |s| ==> IsDigit(s[k])
  }

  /** The value of a string of decimal digits, most significant first. */
  function DigitsValue(s: string): nat
    requires AllDigits(s)
  {
    if s == [] then 0 else DigitsValue(s[..|s| - 1]) * 10 + (s[|s| - 1] as int - '0' as int)
  }

  /** `str(n)` for a non-negative `n`. */
  function Decimal(n: nat): (s: string)
    ensures s != [] && AllDigits(s)
  {
    var d := ['0' + (n % 10) as char];
    if n < 10 then d else Decimal(n / 10) + d
  }

  /** `int(s)` on a string: surrounding whitespace, an optional sign, one or more ASCII digits. */
  function ParseInt(s: string): Option<int>
  {
    var t := Strip(s);
    if t != [] && (t[0] == '-' || t[0] == '+') then
      var digits := t[1..];
      if digits != [] && AllDigits(digits) then
        Some(if t[0] == '-' then -(DigitsValue(digits) as int) else DigitsValue(digits))
      else None
    else if t != [] && AllDigits(t) then Some(DigitsValue(t))
    else None
  }

  /** `int(v)` on a metadata value. */
  function ValueToInt(v: Value): Option<int>
  {
    match v
    case Int(i) => Some(i)
    case Str(s) => ParseInt(s)
  }

  function Zeros(n: nat): (s: string)
    ensures |s| == n && AllDigits(s)
  {
    seq(n, _ => '0')
  }

  /** `s` padded on the left with zeros to `width` characters. */
  function ZeroPad(s: string, width: nat): (r: string)
    ensures |r| == if |s| < width then width else |s|
    ensures r[|r| - |s|..] == s
    ensures forall k :: 0 <= k < |r| - |s| ==> r[k] == '0'
  {
    if |s| < width then Zeros(width - |s|) + s else s
  }

  /** `f"{n:04d}"`: the sign counts towards the width of four. */
  function Format04(n: int): (r: string)
    ensures |r| >= 4
    ensures r[0] == '-' <==> n < 0
    ensures forall k :: 1 <= k < |r| ==> IsDigit(r[k])
  {
    if n >= 0 then ZeroPad(Decimal(n), 4) else "-" + ZeroPad(Decimal(-n), 3)
  }

  lemma {:induction false} DecimalValue(n: nat)
    ensures DigitsValue(Decimal(n)) == n
  {
    if n >= 10 {
      DecimalValue(n / 10);
      var s := Decimal(n);
      assert s[..|s| - 1] == Decimal(n / 10);
    }
  }

  lemma {:induction false} LeadingZerosValue(z: nat, s: string)
    requires AllDigits(s)
    ensures AllDigits(Zeros(z) + s) && DigitsValue(Zeros(z) + s) == DigitsValue(s)
    decreases |s|
  {
    var t := Zeros(z) + s;
    if s == [] {
      assert t == Zeros(z);
      ZerosValue(z);
    } else {
      LeadingZerosValue(z, s[..|s| - 1]);
      assert t[..|t| - 1] == Zeros(z) + s[..|s| - 1];
    }
  }

  lemma {:induction false} ZerosValue(z: nat)
    ensures DigitsValue(Zeros(z)) == 0
  {
    if z > 0 {
      ZerosValue(z - 1);
      assert Zeros(z)[..z - 1] == Zeros(z - 1);
    }
  }

  /** Zero-padding a decimal keeps its value. */
  lemma PaddedValue(m: nat, width: nat)
    ensures var s := ZeroPad(Decimal(m), width);
      s != [] && AllDigits(s) && DigitsValue(s) == m
  {
    DecimalValue(m);
    if |Decimal(m)| < width {
      LeadingZerosValue(width - |Decimal(m)|, Decimal(m));
    }
  }

  /** Text that neither starts nor ends with whitespace is left as it is by `strip()`. */
  lemma StripUnchanged(s: string)
    requires s != [] && !IsSpace(s[0]) && !IsSpace(s[|s| - 1])
    ensures Strip(s) == s
  {
    assert TrimStart(s) == s;
  }

  /** `int()` reads a plain run of digits as its value. */
  lemma ParseDigits(d: string)
    requires d != [] && AllDigits(d)
    ensures ParseInt(d) == Some(DigitsValue(d))
  {
    assert IsDigit(d[0]) && IsDigit(d[|d| - 1]);
    StripUnchanged(d);
  }

  /** `int()` reads a minus sign and a run of digits as the negated value. */
  lemma ParseNegative(d: string, n: int)
    requires n < 0 && d != [] && AllDigits(d) && DigitsValue(d) == -n
    ensures ParseInt("-" + d) == Some(n)
  {
    var f := "-" + d;
    assert f[|f| - 1] == d[|d| - 1] && IsDigit(d[|d| - 1]);
    StripUnchanged(f);
    assert f[1..] == d;
  }

  /** A formatted id reads back as the same number. */
  lemma FormatRoundTrip(n: int)
    ensures ParseInt(Format04(n)) == Some(n)
  {
    if n >= 0 {
      PaddedValue(n, 4);
      ParseDigits(ZeroPad(Decimal(n), 4));
    } else {
      var d := ZeroPad(Decimal(-n), 3);
      PaddedValue(-n, 3);
      ParseNegative(d, n);
    }
  }

  /** Ids from 1000 to 9999 are written as exactly their four digits. */
  lemma FourDigitIds(n: int)
    requires StartId <= n <= MaxId
    ensures Format04(n) == Decimal(n) && |Format04(n)| == 4
  {
    assert 100 <= n / 10 <= 999;
    assert 10 <= n / 10 / 10 <= 99;
    assert 1 <= n / 10 / 10 / 10 <= 9;
    assert |Decimal(n / 10 / 10 / 10)| == 1;
    assert |Decimal(n / 10 / 10)| == 2;
    assert |Decimal(n / 10)| == 3;
    assert |Decimal(n)| == 4;
  }

  // ---------------------------------------------------------------------
  // generate_user_id
  // ---------------------------------------------------------------------

  /** The id a metadata entry contributes: a dict with an `"id"` that `int()` accepts. */
  function IdOf(meta: Metadata): Option<int>
  {
    match meta
    case Fields(f) => if "id" in f then ValueToInt(f["id"]) else None
    case NoMetadata => None
  }

  /** The ids collected from the directory, in order; every other entry is skipped. */
  function ParsedIds(metas: seq<Metadata>): (ids: seq<int>)
    ensures forall x :: x in ids <==> exists i :: 0 <= i < |metas| && IdOf(metas[i]) == Some(x)
  {
    if metas == [] then []
    else
      var rest := ParsedIds(metas[..|metas| - 1]);
      assert forall i :: 0 <= i < |metas| - 1 ==> metas[..|metas| - 1][i] == metas[i];
      match IdOf(metas[|metas| - 1])
      case Some(x) => rest + [x]
      case None => rest
  }

  /** `max(ids)`. */
  function Max(ids: seq<int>): (m: int)
    requires ids != []
    ensures m in ids && forall x :: x in ids ==> x <= m
  {
    if |ids| == 1 then ids[0]
    else
      var m := Max(ids[1..]);
      assert forall x :: x in ids ==> x == ids[0] || x in ids[1..];
      if ids[0] > m then ids[0] else m
  }

  /** `max(ids, default=START_ID - 1) + 1`. */
  function NextId(ids: seq<int>): (n: int)
    ensures forall x :: x in ids ==> x < n
    ensures ids == [] ==> n == StartId
    ensures ids != [] ==> n - 1 in ids
  {
    (if ids == [] then StartId - 1 else Max(ids)) + 1
  }

  /** `generate_user_id`: one past the largest parsed id, refused past 9999. */
  method GenerateUserId(metas: seq<Metadata>) returns (r: Result<string, LoginError>)
    ensures r.Err? <==> NextId(ParsedIds(metas)) > MaxId
    ensures r.Err? ==> r.error == IdLimitReached
    ensures r.Ok? ==> r.value == Format04(NextId(ParsedIds(metas)))
  {
    var ids: seq<int> := [];
    for i := 0 to |metas|
      invariant ids == ParsedIds(metas[..i])
    {
      assert metas[..i + 1][..i] == metas[..i];
      var meta := metas[i];
      if meta.Fields? && "id" in meta.fields {
        match ValueToInt(meta.fields["id"])
        case Some(x) => ids := ids + [x];
        case None =>
      }
    }
    assert metas[..|metas|] == metas;
    var nextId := (if ids == [] then StartId - 1 else Max(ids)) + 1;
    if nextId > MaxId {
      return Err(IdLimitReached);
    }
    return Ok(Format04(nextId));
  }

  /**
   * An allocated id reads back as a number strictly above every id already
   * in the directory, so it never collides with one.
   */
  lemma AllocatedIdIsFresh(metas: seq<Metadata>, i: int)
    requires 0 <= i < |metas| && IdOf(metas[i]).Some?
    requires NextId(ParsedIds(metas)) <= MaxId
    ensures var n := NextId(ParsedIds(metas));
      ParseInt(Format04(n)) == Some(n) && IdOf(metas[i]).value < n
  {
    FormatRoundTrip(NextId(ParsedIds(metas)));
    assert IdOf(metas[i]).value in ParsedIds(metas);
  }

  /** An empty directory allocates "1000". */
  lemma EmptyDirectoryStartsAt1000()
    ensures NextId(ParsedIds([])) == StartId && Format04(StartId) == "1000"
  {
    FourDigitIds(StartId);
  }

  // ---------------------------------------------------------------------
  // get_user_by_name
  // ---------------------------------------------------------------------

  /** `meta.get("name", "")`, which must be a string for `.strip()`. */
  function NameOf(f: map<string, Value>): Option<string>
  {
    if "name" !in f then Some("")
    else match f["name"]
      case Str(s) => Some(s)
      case Int(_) => None
  }

  /** `s.strip().lower()`. */
  function NameKey(s: string): string
  {
    Lower(Strip(s))
  }

  /** A key neither starts nor ends with whitespace and has no capitals. */
  lemma NameKeyShape(s: string)
    ensures var k := NameKey(s);
      && (k != [] ==> !IsSpace(k[0]) && !IsSpace(k[|k| - 1]))
      && forall i :: 0 <= i < |k| ==> !IsUpperAscii(k[i])
  {
    StripLower(s);
  }

  /** The entry can be compared by name without raising. */
  predicate Comparable(meta: Metadata)
  {
    meta.Fields? && NameOf(meta.fields).Some?
  }

  predicate NameMatches(meta: Metadata, name: string)
    requires Comparable(meta)
  {
    NameKey(NameOf(meta.fields).value) == NameKey(name)
  }

  /** The entry is passed over: comparable, with a different name. */
  predicate PassedOver(meta: Metadata, name: string)
  {
    Comparable(meta) && !NameMatches(meta, name)
  }

  /**
   * `get_user_by_name`: the first entry whose stripped, lower-cased name
   * equals the stripped, lower-cased query; `None` when there is none;
   * an error at the first entry that cannot be compared.
   */
  function GetUserByName(metas: seq<Metadata>, name: string): Result<Option<map<string, Value>>, LoginError>
  {
    if metas == [] then Ok(None)
    else
      match metas[0]
      case NoMetadata => Err(AttributeError)
      case Fields(f) =>
        match NameOf(f)
        case None => Err(AttributeError)
        case Some(stored) =>
          if NameKey(stored) == NameKey(name) then Ok(Some(f))
          else GetUserByName(metas[1..], name)
  }

  /** An entry that is passed over leaves the answer to the rest of the directory. */
  lemma LookupSkips(metas: seq<Metadata>, name: string)
    requires metas != [] && PassedOver(metas[0], name)
    ensures GetUserByName(metas, name) == GetUserByName(metas[1..], name)
  {
  }

  /** An entry that is not passed over decides the answer. */
  lemma LookupStops(metas: seq<Metadata>, name: string)
    requires metas != [] && !PassedOver(metas[0], name)
    ensures !Comparable(metas[0]) ==> GetUserByName(metas, name) == Err(AttributeError)
    ensures Comparable(metas[0]) ==>
      NameMatches(metas[0], name) && GetUserByName(metas, name) == Ok(Some(metas[0].fields))
  {
    match metas[0]
    case NoMetadata =>
    case Fields(f) =>
      if NameOf(f).None? {
        assert GetUserByName(metas, name) == Err(AttributeError);
      }
  }

  /**
   * The lookup is decided by the first entry `k` that is not passed over:
   * with none, the result is `None`; an entry that cannot be compared
   * raises; otherwise that entry's record is returned.
   */
  lemma {:induction false} GetUserByNameSpec(metas: seq<Metadata>, name: string, k: nat)
    requires k <= |metas|
    requires forall j :: 0 <= j < k ==> PassedOver(metas[j], name)
    requires k < |metas| ==> !PassedOver(metas[k], name)
    ensures k == |metas| ==> GetUserByName(metas, name) == Ok(None)
    ensures k < |metas| && !Comparable(metas[k]) ==> GetUserByName(metas, name) == Err(AttributeError)
    ensures k < |metas| && Comparable(metas[k]) ==>
      NameMatches(metas[k], name) && GetUserByName(metas, name) == Ok(Some(metas[k].fields))
  {
    if k == 0 && metas != [] {
      LookupStops(metas, name);
    } else if k > 0 {
      LookupSkips(metas, name);
      var rest := metas[1..];
      forall j | 0 <= j < k - 1
        ensures PassedOver(rest[j], name)
      {
        assert rest[j] == metas[j + 1];
      }
      if k < |metas| {
        assert rest[k - 1] == metas[k];
      }
      GetUserByNameSpec(rest, name, k - 1);
    }
  }

  /** Names that differ only in letter case have the same key. */
  lemma SameLowerSameKey(a: string, b: string)
    requires Lower(a) == Lower(b)
    ensures NameKey(a) == NameKey(b)
  {
    StripLower(a);
    StripLower(b);
    LowerTwice(Strip(a));
    LowerTwice(Strip(b));
  }

  /** Whitespace of any length around a name does not change its key. */
  lemma SurroundingSpaceSameKey(w1: string, a: string, w2: string)
    requires AllSpace(w1) && AllSpace(w2)
    ensures NameKey(w1 + a + w2) == NameKey(a)
  {
    StripTrailingSpaces(w1 + a, w2);
    StripLeadingSpaces(w1, a);
  }

  /** The lookup sees the query only through its key. */
  lemma {:induction false} SameKeySameLookup(metas: seq<Metadata>, a: string, b: string)
    requires NameKey(a) == NameKey(b)
    ensures GetUserByName(metas, a) == GetUserByName(metas, b)
  {
    if metas != [] {
      SameKeySameLookup(metas[1..], a, b);
    }
  }

  /**
   * Queries that differ in letter case or in surrounding whitespace find
   * the same user, or raise alike.
   */
  lemma LookupIgnoresCaseAndSpaces(metas: seq<Metadata>, a: string, b: string, w1: string, w2: string)
    requires Lower(a) == Lower(b) && AllSpace(w1) && AllSpace(w2)
    ensures GetUserByName(metas, w1 + a + w2) == GetUserByName(metas, b)
  {
    SurroundingSpaceSameKey(w1, a, w2);
    SameLowerSameKey(a, b);
    SameKeySameLookup(metas, w1 + a + w2, b);
  }
}
