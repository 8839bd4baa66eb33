/** The exhibit-number generator of the intake page: a device-type code
    table, the month/year token, the handler's initials and the fixed
    layout NCCC/<code>/<MMYY>/<initials>/<device id>. The wall clock the
    generator reads is a parameter here. ParseExhibitNumber is the inverse
    used to state what the layout guarantees. */
module Exhibit {
  import opened Wrappers
  import opened Text

  /** A reading of the wall clock (Python's datetime). */
  datatype DateTime = DateTime(year: int, month: int, day: int, hour: int, minute: int, second: int)

  /** The ranges Python's datetime guarantees for its fields. */
  predicate ValidDateTime(t: DateTime)
  {
    && 1 <= t.year <= 9999
    && 1 <= t.month <= 12
    && 1 <= t.day <= 31
    && 0 <= t.hour < 24
    && 0 <= t.minute < 60
    && 0 <= t.second < 60
  }

  /** The fixed organisation tag that opens every exhibit number. */
  const Organisation: string := "NCCC"

  /** Device type, as offered by the intake form, to its short code. */
  const DeviceTypeCodes: map<string, string> := map[
    "Smartphone" := "SP",
    "Laptop" := "L",
    "Hard Drive" := "HD",
    "Flash Drive" := "FD",
    "Drone" := "D",
    "Other" := "OTH"
  ]

  /** The code used for "Other" and for any type not in the table. */
  const DefaultCode: string := "OTH"

  /** The table lookup with its default: every result is one of the
      table's codes, and none of them holds the separator '/'. */
  function DeviceCode(deviceType: string): (code: string)
    ensures code in DeviceTypeCodes.Values
    ensures 1 <= |code| <= 3 && '/' !in code
    ensures deviceType !in DeviceTypeCodes ==> code == DefaultCode
  {
    assert DeviceTypeCodes["Other"] == DefaultCode;
    if deviceType in DeviceTypeCodes then DeviceTypeCodes[deviceType] else DefaultCode
  }

  /** Two digits of n < 100, zero padded (strftime's %m and %y). */
  function TwoDigits(n: nat): (s: string)
    requires n < 100
    ensures |s| == 2 && AllDigits(s) && ParseDecimal(s) == n
  {
    var s := [DigitChar(n / 10), DigitChar(n % 10)];
    assert s[..1] == [s[0]] && s[..1][..0] == [];
    assert ParseDecimal(s[..1]) == n / 10;
    s
  }

  /** strftime("%m%y"): the month and the year within its century, each as
      two digits; both can be read back from the token. */
  function MonthYearToken(t: DateTime): (token: string)
    requires ValidDateTime(t)
    ensures |token| == 4 && AllDigits(token)
    ensures ParseDecimal(token[..2]) == t.month
    ensures ParseDecimal(token[2..]) == t.year % 100
  {
    var mm := TwoDigits(t.month);
    var yy := TwoDigits(t.year % 100);
    assert (mm + yy)[..2] == mm && (mm + yy)[2..] == yy;
    mm + yy
  }

  /** Why the generator can fail: first_name[0] or last_name[0] on an
      empty name raises in the source. */
  datatype ExhibitError = EmptyName

  /** The handler's initials: the capitalised first character of each
      name. Fails when either name is empty. */
  function Initials(firstName: string, lastName: string): (r: Result<string, ExhibitError>)
    ensures r.Ok? <==> firstName != [] && lastName != []
    ensures r.Ok? ==> |r.value| == 2
    ensures r.Ok? ==> r.value[0] == UpperChar(firstName[0]) && r.value[1] == UpperChar(lastName[0])
  {
    if firstName == [] || lastName == [] then Err(EmptyName)
    else Ok([UpperChar(firstName[0]), UpperChar(lastName[0])])
  }

  /** generate_exhibit_number, with the clock reading passed in. */
  function GenerateExhibitNumber(deviceType: string, firstName: string, lastName: string,
                                 deviceId: nat, now: DateTime): (r: Result<string, ExhibitError>)
    requires ValidDateTime(now)
    ensures r.Ok? <==> firstName != [] && lastName != []
    ensures r.Err? ==> r.error == EmptyName
  {
    match Initials(firstName, lastName)
    case Err(e) => Err(e)
    case Ok(initials) =>
      Ok(Organisation + "/" + DeviceCode(deviceType) + "/" + MonthYearToken(now) + "/"
         + initials + "/" + NatToString(deviceId))
  }

  // ---------------------------------------------------------------------
  // Reading an exhibit number back
  // ---------------------------------------------------------------------

  /** The four fields an exhibit number encodes after the organisation tag. */
  datatype ExhibitParts = ExhibitParts(code: string, monthYear: string, initials: string, deviceId: nat)

  /** Index of the first c in s, or |s| when there is none. */
  function IndexOf(s: string, c: char): (k: nat)
    ensures k <= |s|
    ensures k < |s| ==> s[k] == c
    ensures c !in s[..k]
  {
    if s == [] then 0
    else if s[0] == c then 0
    else
      var k := 1 + IndexOf(s[1..], c);
      assert s[..k] == [s[0]] + s[1..][..k - 1];
      k
  }

  /** Split an exhibit number into its fields: the tag and '/', the code up
      to the next '/', then four characters of month/year, '/', two
      characters of initials, '/' and the decimal device id. */
  function ParseExhibitNumber(s: string): (r: Option<ExhibitParts>)
    ensures r.Some? ==> '/' !in r.value.code && |r.value.monthYear| == 4 && |r.value.initials| == 2
  {
    var prefix := Organisation + "/";
    if !(prefix <= s) then None
    else
      var rest := s[|prefix|..];
      var k := IndexOf(rest, '/');
      if k == |rest| then None
      else
        var tail := rest[k + 1..];
        if |tail| < 9 || tail[4] != '/' || tail[7] != '/' || !AllDigits(tail[8..]) then None
        else Some(ExhibitParts(rest[..k], tail[..4], tail[5..7], ParseDecimal(tail[8..])))
  }

  /** Reading back the first '/' after a segment free of '/'. */
  lemma {:induction false} IndexOfAfterSegment(a: string, b: string, c: char)
    requires c !in a
    ensures IndexOf(a + [c] + b, c) == |a|
    decreases |a|
  {
    if a != [] {
      assert (a + [c] + b)[1..] == a[1..] + [c] + b;
      IndexOfAfterSegment(a[1..], b, c);
    }
  }

  /** The layout is unambiguous: every generated exhibit number reads back
      as the device code, the month/year token, the initials and the very
      device id it was generated from. */
  lemma ExhibitNumberRoundTrip(deviceType: string, firstName: string, lastName: string,
                               deviceId: nat, now: DateTime)
    requires ValidDateTime(now)
    requires GenerateExhibitNumber(deviceType, firstName, lastName, deviceId, now).Ok?
    ensures ParseExhibitNumber(GenerateExhibitNumber(deviceType, firstName, lastName, deviceId, now).value)
         == Some(ExhibitParts(DeviceCode(deviceType), MonthYearToken(now),
                              Initials(firstName, lastName).value, deviceId))
  {
    var code := DeviceCode(deviceType);
    var token := MonthYearToken(now);
    var initials := Initials(firstName, lastName).value;
    var digits := NatToString(deviceId);
    var tail := token + "/" + initials + "/" + digits;
    var rest := code + "/" + tail;
    var s := Organisation + "/" + rest;
    assert GenerateExhibitNumber(deviceType, firstName, lastName, deviceId, now).value == s;
    assert s[|Organisation + "/"|..] == rest;
    IndexOfAfterSegment(code, tail, '/');
    assert rest[..|code|] == code && rest[|code| + 1..] == tail;
    assert tail[..4] == token && tail[5..7] == initials && tail[8..] == digits;
    ParseNatToString(deviceId);
  }

  /** Exhibit numbers never collide across devices: two successful
      generations that give the same string were made for the same device
      id, device code, month/year and initials. */
  lemma ExhibitNumberInjective(type1: string, first1: string, last1: string, id1: nat, now1: DateTime,
                               type2: string, first2: string, last2: string, id2: nat, now2: DateTime)
    requires ValidDateTime(now1) && ValidDateTime(now2)
    requires GenerateExhibitNumber(type1, first1, last1, id1, now1).Ok?
    requires GenerateExhibitNumber(type1, first1, last1, id1, now1)
          == GenerateExhibitNumber(type2, first2, last2, id2, now2)
    ensures id1 == id2
    ensures DeviceCode(type1) == DeviceCode(type2)
    ensures MonthYearToken(now1) == MonthYearToken(now2)
    ensures Initials(first1, last1) == Initials(first2, last2)
  {
    ExhibitNumberRoundTrip(type1, first1, last1, id1, now1);
    ExhibitNumberRoundTrip(type2, first2, last2, id2, now2);
  }

  /** The generator has no hidden input: apart from the device type and
      id it depends on the clock only through its month and two-digit
      year, and on the names only through their capitalised first
      characters. */
  lemma ExhibitNumberInputs(deviceType: string, first1: string, last1: string, now1: DateTime,
                            first2: string, last2: string, now2: DateTime, deviceId: nat)
    requires ValidDateTime(now1) && ValidDateTime(now2)
    requires now1.month == now2.month && now1.year % 100 == now2.year % 100
    requires first1 != [] && last1 != [] && first2 != [] && last2 != []
    requires UpperChar(first1[0]) == UpperChar(first2[0]) && UpperChar(last1[0]) == UpperChar(last2[0])
    ensures GenerateExhibitNumber(deviceType, first1, last1, deviceId, now1)
         == GenerateExhibitNumber(deviceType, first2, last2, deviceId, now2)
  {
  }

  /** The month/year token identifies the month and the year within its
      century, and nothing finer. */
  lemma MonthYearTokenDecides(t1: DateTime, t2: DateTime)
    requires ValidDateTime(t1) && ValidDateTime(t2)
    ensures MonthYearToken(t1) == MonthYearToken(t2)
        <==> t1.month == t2.month && t1.year % 100 == t2.year % 100
  {
  }

  /** The code table: distinct known types other than "Other" get distinct
      codes, and the code is "OTH" exactly for "Other" and for every
      unrecognised type. */
  lemma DeviceCodeTable(t1: string, t2: string)
    ensures DeviceCode(t1) == DefaultCode <==> t1 == "Other" || t1 !in DeviceTypeCodes
    ensures t1 in DeviceTypeCodes && t2 in DeviceTypeCodes && t1 != t2 && t1 != "Other" && t2 != "Other"
            ==> DeviceCode(t1) != DeviceCode(t2)
  {
  }
}
