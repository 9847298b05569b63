/**
 * `InputParser`: one line of the input at a time, split into fields,
 * converted to numbers and validated, in that order; the first failing
 * step decides the error.
 */
module InputParsing {
  import opened Base
  import opened Packages
  import opened Text
  import CostEstimation

  /** `{baseCharge, totalPackages}`. */
  datatype FirstLine = FirstLine(baseCharge: real, totalPackages: int)

  /** `{numVehicles, maxSpeed, capacity}`. */
  datatype VehicleConfig = VehicleConfig(numVehicles: int, maxSpeed: real, capacity: real)

  /** The fields of a line split on single spaces, after trimming. */
  function Fields(line: string): seq<string>
  {
    SplitOn(Trim(line), ' ')
  }

  /** There is one field more than there are spaces inside the trimmed line. */
  lemma FieldCount(line: string)
    ensures |Fields(line)| == multiset(Trim(line))[' '] + 1
  {
    SplitOnCount(Trim(line), ' ');
  }

  /** The tokens of a line split on white-space runs, after trimming. */
  function Tokens(line: string): seq<string>
  {
    SplitOnWhitespaceRuns(Trim(line))
  }

  /** A line that is not blank has only real tokens, none holding white space. */
  lemma TokensArePlain(line: string)
    ensures Trim(line) != [] ==> forall i :: 0 <= i < |Tokens(line)| ==> |Tokens(line)[i]| > 0 && NoWhitespace(Tokens(line)[i])
  {
    TrimIsTrimmed(line);
    RunsFacts(Trim(line));
    if Trim(line) != [] {
      TrimmedTokensNonEmpty(Trim(line));
    }
  }

  /**
   * `parseFirstLine`: exactly one space inside the trimmed line, a
   * `parseFloat` base charge and a `parseInt` package count, neither
   * negative.
   */
  function ParseFirstLine(line: string): (r: Result<FirstLine>)
    ensures r.Err? && r.error.WrongFieldCount? <==> |Fields(line)| != 2
    ensures r.Err? && r.error.WrongFieldCount? ==> r.error == WrongFieldCount(2, |Fields(line)|)
    ensures r.Ok? ==> r.value.baseCharge >= 0.0 && r.value.totalPackages >= 0
    ensures r.Ok? ==>
      Some(r.value.baseCharge) == ParseFloat(Fields(line)[0]) && Some(r.value.totalPackages) == ParseInt(Fields(line)[1])
  {
    var parts := Fields(line);
    if |parts| != 2 then
      Err(WrongFieldCount(2, |parts|))
    else
      var baseCharge, totalPackages := ParseFloat(parts[0]), ParseInt(parts[1]);
      if baseCharge.None? || totalPackages.None? then
        Err(NotANumber)
      else if baseCharge.value < 0.0 || totalPackages.value < 0 then
        Err(NegativeValue)
      else
        Ok(FirstLine(baseCharge.value, totalPackages.value))
  }

  /** The single-file programs' `parseFirstLine`: the same, without the sign check. */
  function ParseFirstLineUnchecked(line: string): (r: Result<FirstLine>)
    ensures r.Err? && r.error.WrongFieldCount? <==> |Fields(line)| != 2
    ensures r.Err? ==> r.error != NegativeValue
  {
    var parts := Fields(line);
    if |parts| != 2 then
      Err(WrongFieldCount(2, |parts|))
    else
      var baseCharge, totalPackages := ParseFloat(parts[0]), ParseInt(parts[1]);
      if baseCharge.None? || totalPackages.None? then
        Err(NotANumber)
      else
        Ok(FirstLine(baseCharge.value, totalPackages.value))
  }

  /** The two first-line parsers differ exactly on a negative base charge or count. */
  lemma FirstLineVariantsAgree(line: string)
    ensures ParseFirstLine(line) ==
      match ParseFirstLineUnchecked(line)
      case Ok(c) => if c.baseCharge < 0.0 || c.totalPackages < 0 then Err(NegativeValue) else Ok(c)
      case Err(e) => Err(e)
  {
  }

  /**
   * `parsePackageLine`: exactly three spaces inside the trimmed line; the
   * identifier and the offer code verbatim, weight and distance by
   * `parseFloat`, neither negative.
   */
  function ParsePackageLine(line: string): (r: Result<Package>)
    ensures r.Err? && r.error.WrongFieldCount? <==> |Fields(line)| != 4
    ensures r.Err? && r.error.WrongFieldCount? ==> r.error == WrongFieldCount(4, |Fields(line)|)
    ensures r.Ok? ==> r.value.id == Fields(line)[0] && r.value.offerCode == Some(Fields(line)[3])
    ensures r.Ok? ==> r.value.weight >= 0.0 && r.value.distance >= 0.0 && r.value.charges.None?
    ensures r.Ok? ==>
      Some(r.value.weight) == ParseFloat(Fields(line)[1]) && Some(r.value.distance) == ParseFloat(Fields(line)[2])
  {
    var parts := Fields(line);
    if |parts| != 4 then
      Err(WrongFieldCount(4, |parts|))
    else
      var weight, distance := ParseFloat(parts[1]), ParseFloat(parts[2]);
      if weight.None? || distance.None? then
        Err(NotANumber)
      else if weight.value < 0.0 || distance.value < 0.0 then
        Err(NegativeValue)
      else
        Ok(Package(parts[0], weight.value, distance.value, Some(parts[3]), None))
  }

  /** The single-file estimator's `parsePackageLine`: the same, reporting the identifier as `pkgId`. */
  function ParsePackageLineCli(line: string): (r: Result<CostEstimation.CliPackage>)
    ensures r.Err? && r.error.WrongFieldCount? <==> |Fields(line)| != 4
    ensures r.Ok? ==> r.value.pkgId == Fields(line)[0] && r.value.offerCode == Fields(line)[3]
    ensures r.Ok? ==> r.value.weight >= 0.0 && r.value.distance >= 0.0
  {
    var parts := Fields(line);
    if |parts| != 4 then
      Err(WrongFieldCount(4, |parts|))
    else
      var weight, distance := ParseFloat(parts[1]), ParseFloat(parts[2]);
      if weight.None? || distance.None? then
        Err(NotANumber)
      else if weight.value < 0.0 || distance.value < 0.0 then
        Err(NegativeValue)
      else
        Ok(CostEstimation.CliPackage(parts[0], weight.value, distance.value, parts[3]))
  }

  /** Both package-line parsers accept and reject the same lines and read the same package. */
  lemma PackageLineVariantsAgree(line: string)
    ensures ParsePackageLine(line) ==
      match ParsePackageLineCli(line)
      case Ok(c) => Ok(CostEstimation.AsPackage(c))
      case Err(e) => Err(e)
  {
  }

  /**
   * `parseVehicleLine`: exactly three tokens between white-space runs; a
   * `parseInt` vehicle count that is positive (it is always an integer),
   * and a positive `parseFloat` speed and capacity.
   */
  function ParseVehicleLine(line: string): (r: Result<VehicleConfig>)
    ensures r.Err? && r.error.WrongFieldCount? <==> |Tokens(line)| != 3
    ensures r.Err? && r.error.WrongFieldCount? ==> r.error == WrongFieldCount(3, |Tokens(line)|)
    ensures r.Ok? ==> r.value.numVehicles > 0 && r.value.maxSpeed > 0.0 && r.value.capacity > 0.0
    ensures r.Ok? ==>
      && Some(r.value.numVehicles) == ParseInt(Tokens(line)[0])
      && Some(r.value.maxSpeed) == ParseFloat(Tokens(line)[1])
      && Some(r.value.capacity) == ParseFloat(Tokens(line)[2])
  {
    var tokens := Tokens(line);
    if |tokens| != 3 then
      Err(WrongFieldCount(3, |tokens|))
    else
      var numVehicles, maxSpeed, capacity := ParseInt(tokens[0]), ParseFloat(tokens[1]), ParseFloat(tokens[2]);
      if numVehicles.None? || maxSpeed.None? || capacity.None? then
        Err(NotANumber)
      else if numVehicles.value <= 0 then
        Err(NotPositiveInteger)
      else if maxSpeed.value <= 0.0 || capacity.value <= 0.0 then
        Err(NotPositive)
      else
        Ok(VehicleConfig(numVehicles.value, maxSpeed.value, capacity.value))
  }

  /**
   * The problem-02 `parseVehicleLine`: the same tokens converted with
   * `Number`, so the whole token must be numeric, and a vehicle count with
   * a fraction is refused.
   */
  function ParseVehicleLineNumber(line: string): (r: Result<VehicleConfig>)
    ensures r.Err? && r.error.WrongFieldCount? <==> |Tokens(line)| != 3
    ensures r.Ok? ==> r.value.numVehicles > 0 && r.value.maxSpeed > 0.0 && r.value.capacity > 0.0
    ensures r.Ok? ==>
      && Some(r.value.numVehicles as real) == ToNumber(Tokens(line)[0])
      && Some(r.value.maxSpeed) == ToNumber(Tokens(line)[1])
      && Some(r.value.capacity) == ToNumber(Tokens(line)[2])
  {
    var tokens := Tokens(line);
    if |tokens| != 3 then
      Err(WrongFieldCount(3, |tokens|))
    else
      var numVehicles, maxSpeed, capacity := ToNumber(tokens[0]), ToNumber(tokens[1]), ToNumber(tokens[2]);
      if numVehicles.None? || maxSpeed.None? || capacity.None? then
        Err(NotANumber)
      else if !IsInteger(numVehicles.value) || numVehicles.value <= 0.0 then
        Err(NotPositiveInteger)
      else if maxSpeed.value <= 0.0 || capacity.value <= 0.0 then
        Err(NotPositive)
      else
        Ok(VehicleConfig(numVehicles.value.Floor, maxSpeed.value, capacity.value))
  }

  /** A field without white space holds no space. */
  lemma PlainHasNoSpace(s: string)
    requires NoWhitespace(s)
    ensures ' ' !in s && multiset(s)[' '] == 0
  {
    forall i | 0 <= i < |s|
      ensures s[i] != ' '
    {
      assert !IsWhitespace(s[i]);
    }
  }

  /** Two white-space-free fields one space apart are read back as they are. */
  lemma TwoFields(x: string, y: string)
    requires |x| > 0 && NoWhitespace(x) && |y| > 0 && NoWhitespace(y)
    ensures Fields(x + " " + y) == [x, y]
  {
    var line := x + " " + y;
    PlainHasNoSpace(x);
    PlainHasNoSpace(y);
    assert line[0] == x[0] && line[|line| - 1] == y[|y| - 1];
    TrimOfTrimmed(line);
    assert JoinOn([x, y], [' ']) == line;
    SplitJoin([x, y], ' ');
  }

  /** Three fields without white space, one space apart, are read back as they are; the middle one may be empty. */
  lemma ThreeFields(p: string, q: string, x: string)
    requires |p| > 0 && NoWhitespace(p) && NoWhitespace(q) && |x| > 0 && NoWhitespace(x)
    ensures Fields(p + " " + q + " " + x) == [p, q, x]
  {
    var line := p + " " + q + " " + x;
    PlainHasNoSpace(p);
    PlainHasNoSpace(q);
    PlainHasNoSpace(x);
    assert line[0] == p[0] && line[|line| - 1] == x[|x| - 1];
    TrimOfTrimmed(line);
    var parts := [p, q, x];
    assert JoinOn(parts[2..], [' ']) == x;
    assert JoinOn(parts[1..], [' ']) == q + " " + x;
    assert JoinOn(parts, [' ']) == line;
    SplitJoin(parts, ' ');
  }

  /** Four white-space-free fields one space apart are read back as they are. */
  lemma FourFields(p: string, q: string, x: string, y: string)
    requires |p| > 0 && NoWhitespace(p) && NoWhitespace(q) && NoWhitespace(x) && |y| > 0 && NoWhitespace(y)
    ensures Fields(p + " " + q + " " + x + " " + y) == [p, q, x, y]
  {
    var line := p + " " + q + " " + x + " " + y;
    PlainHasNoSpace(p);
    PlainHasNoSpace(q);
    PlainHasNoSpace(x);
    PlainHasNoSpace(y);
    assert line[0] == p[0] && line[|line| - 1] == y[|y| - 1];
    TrimOfTrimmed(line);
    var parts := [p, q, x, y];
    assert JoinOn(parts[3..], [' ']) == y;
    assert JoinOn(parts[2..], [' ']) == x + " " + y;
    assert JoinOn(parts[1..], [' ']) == q + " " + x + " " + y;
    assert JoinOn(parts, [' ']) == line;
    SplitJoin(parts, ' ');
  }

  /** Three white-space-free tokens are read back as they are, whatever white-space runs part them. */
  lemma ThreeTokens(x: string, gap1: string, y: string, gap2: string, z: string)
    requires |x| > 0 && NoWhitespace(x) && |y| > 0 && NoWhitespace(y) && |z| > 0 && NoWhitespace(z)
    requires |gap1| > 0 && AllWhitespace(gap1) && |gap2| > 0 && AllWhitespace(gap2)
    ensures Tokens(x + gap1 + y + gap2 + z) == [x, y, z]
  {
    var tail := y + gap2 + z;
    var line := x + gap1 + tail;
    assert x + gap1 + y + gap2 + z == line;
    assert line[0] == x[0] && line[|line| - 1] == z[|z| - 1];
    TrimOfTrimmed(line);
    TwoRuns(y, gap2, z);
    assert tail[0] == y[0];
    SplitRunsAfterRun(x, gap1, tail);
  }

  /** Two white-space-free tokens and the run between them split into the two tokens. */
  lemma TwoRuns(y: string, gap: string, z: string)
    requires |y| > 0 && NoWhitespace(y) && |z| > 0 && NoWhitespace(z) && |gap| > 0 && AllWhitespace(gap)
    ensures SplitOnWhitespaceRuns(y + gap + z) == [y, z]
  {
    SplitRunsWithoutWhitespace(z);
    SplitRunsAfterRun(y, gap, z);
  }

  /** A line of two fields that read as a non-negative base charge and package count is accepted. */
  lemma FirstLineFromFields(line: string, baseCharge: real, totalPackages: int)
    requires |Fields(line)| == 2
    requires ParseFloat(Fields(line)[0]) == Some(baseCharge) && ParseInt(Fields(line)[1]) == Some(totalPackages)
    requires baseCharge >= 0.0 && totalPackages >= 0
    ensures ParseFirstLine(line) == Ok(FirstLine(baseCharge, totalPackages))
  {
  }

  /** Two numerals one space apart are the two fields of the line. */
  lemma NumeralFields(a: nat, b: nat)
    ensures Fields(ShowNat(a) + " " + ShowNat(b)) == [ShowNat(a), ShowNat(b)]
  {
    NumeralIsPlain(a);
    NumeralIsPlain(b);
    TwoFields(ShowNat(a), ShowNat(b));
  }

  /** A first line written as two numerals and one space reads back as those numbers. */
  lemma FirstLineRoundTrip(baseCharge: nat, totalPackages: nat)
    ensures ParseFirstLine(ShowNat(baseCharge) + " " + ShowNat(totalPackages)) ==
      Ok(FirstLine(baseCharge as real, totalPackages))
  {
    NumeralFields(baseCharge, totalPackages);
    NumeralReadsBack(baseCharge);
    NumeralReadsBack(totalPackages);
    FirstLineFromFields(ShowNat(baseCharge) + " " + ShowNat(totalPackages), baseCharge as real, totalPackages);
  }

  /** Two numerals two spaces apart make three fields, the middle one empty. */
  lemma DoubleSpaceFields(a: nat, b: nat)
    ensures |Fields(ShowNat(a) + "  " + ShowNat(b))| == 3
  {
    NumeralIsPlain(a);
    NumeralIsPlain(b);
    assert ShowNat(a) + "  " + ShowNat(b) == ShowNat(a) + " " + [] + " " + ShowNat(b);
    ThreeFields(ShowNat(a), [], ShowNat(b));
  }

  /** A doubled inner space leaves an empty third field, so the line is refused on its field count. */
  lemma FirstLineRejectsDoubleSpace(baseCharge: nat, totalPackages: nat)
    ensures ParseFirstLine(ShowNat(baseCharge) + "  " + ShowNat(totalPackages)) == Err(WrongFieldCount(2, 3))
  {
    DoubleSpaceFields(baseCharge, totalPackages);
  }

  /** A first line with only one field is refused on its field count. */
  lemma FirstLineRejectsOneField(baseCharge: nat)
    ensures ParseFirstLine(ShowNat(baseCharge)) == Err(WrongFieldCount(2, 1))
  {
    var a := ShowNat(baseCharge);
    assert |Fields(a)| == 1 by {
      NumeralIsPlain(baseCharge);
      PlainHasNoSpace(a);
      TrimOfTrimmed(a);
      FieldCount(a);
    }
  }

  /** A line of four fields whose middle two read as non-negative numbers is accepted, first and last verbatim. */
  lemma PackageLineFromFields(line: string, weight: real, distance: real)
    requires |Fields(line)| == 4
    requires ParseFloat(Fields(line)[1]) == Some(weight) && ParseFloat(Fields(line)[2]) == Some(distance)
    requires weight >= 0.0 && distance >= 0.0
    ensures ParsePackageLine(line) == Ok(Package(Fields(line)[0], weight, distance, Some(Fields(line)[3]), None))
  {
  }

  /** The same, for a line whose four fields are given one by one. */
  lemma PackageLineOfFields(line: string, id: string, w: string, d: string, offerCode: string, weight: real, distance: real)
    requires Fields(line) == [id, w, d, offerCode]
    requires ParseFloat(w) == Some(weight) && ParseFloat(d) == Some(distance)
    requires weight >= 0.0 && distance >= 0.0
    ensures ParsePackageLine(line) == Ok(Package(id, weight, distance, Some(offerCode), None))
  {
    PackageLineFromFields(line, weight, distance);
  }

  /** Identifier, two numerals and offer code one space apart are the four fields of the line. */
  lemma PackageFields(id: string, weight: nat, distance: nat, offerCode: string)
    requires |id| > 0 && NoWhitespace(id)
    requires |offerCode| > 0 && NoWhitespace(offerCode)
    ensures Fields(id + " " + ShowNat(weight) + " " + ShowNat(distance) + " " + offerCode)
      == [id, ShowNat(weight), ShowNat(distance), offerCode]
  {
    NumeralIsPlain(weight);
    NumeralIsPlain(distance);
    FourFields(id, ShowNat(weight), ShowNat(distance), offerCode);
  }

  /** `parseFloat` reads two numerals back. */
  lemma TwoFloats(a: nat, b: nat)
    ensures ParseFloat(ShowNat(a)) == Some(a as real) && ParseFloat(ShowNat(b)) == Some(b as real)
  {
    NumeralReadsBack(a);
    NumeralReadsBack(b);
  }

  /**
   * A package line written as identifier, two numerals and offer code,
   * one space apart, reads back as that package, fields verbatim.
   */
  lemma PackageLineRoundTrip(id: string, weight: nat, distance: nat, offerCode: string)
    requires |id| > 0 && NoWhitespace(id)
    requires |offerCode| > 0 && NoWhitespace(offerCode)
    ensures ParsePackageLine(id + " " + ShowNat(weight) + " " + ShowNat(distance) + " " + offerCode) ==
      Ok(Package(id, weight as real, distance as real, Some(offerCode), None))
  {
    PackageFields(id, weight, distance, offerCode);
    TwoFloats(weight, distance);
    PackageLineOfFields(id + " " + ShowNat(weight) + " " + ShowNat(distance) + " " + offerCode,
      id, ShowNat(weight), ShowNat(distance), offerCode, weight as real, distance as real);
  }

  /** Identifier and two numerals one space apart are three fields. */
  lemma ShortPackageFields(id: string, weight: nat, distance: nat)
    requires |id| > 0 && NoWhitespace(id)
    ensures |Fields(id + " " + ShowNat(weight) + " " + ShowNat(distance))| == 3
  {
    NumeralIsPlain(weight);
    NumeralIsPlain(distance);
    ThreeFields(id, ShowNat(weight), ShowNat(distance));
  }

  /** A package line with a field missing is refused on its field count. */
  lemma PackageLineRejectsThreeFields(id: string, weight: nat, distance: nat)
    requires |id| > 0 && NoWhitespace(id)
    ensures ParsePackageLine(id + " " + ShowNat(weight) + " " + ShowNat(distance)) == Err(WrongFieldCount(4, 3))
  {
    ShortPackageFields(id, weight, distance);
  }

  /** A line of three tokens that `parseInt` and `parseFloat` read as positive numbers is accepted. */
  lemma VehicleLineFromTokens(line: string, n: int, v: real, c: real)
    requires |Tokens(line)| == 3
    requires ParseInt(Tokens(line)[0]) == Some(n) && ParseFloat(Tokens(line)[1]) == Some(v) && ParseFloat(Tokens(line)[2]) == Some(c)
    requires n > 0 && v > 0.0 && c > 0.0
    ensures ParseVehicleLine(line) == Ok(VehicleConfig(n, v, c))
  {
  }

  /** A line of three tokens that `Number` reads as a positive integer and two positive numbers is accepted. */
  lemma VehicleLineNumberFromTokens(line: string, n: int, v: real, c: real)
    requires |Tokens(line)| == 3
    requires ToNumber(Tokens(line)[0]) == Some(n as real) && ToNumber(Tokens(line)[1]) == Some(v) && ToNumber(Tokens(line)[2]) == Some(c)
    requires n > 0 && v > 0.0 && c > 0.0
    ensures ParseVehicleLineNumber(line) == Ok(VehicleConfig(n, v, c))
  {
    assert IsInteger(n as real) && (n as real).Floor == n;
  }

  /** Three numerals parted by white-space runs are the three tokens of the line. */
  lemma NumeralTokens(a: nat, gap1: string, b: nat, gap2: string, c: nat)
    requires |gap1| > 0 && AllWhitespace(gap1) && |gap2| > 0 && AllWhitespace(gap2)
    ensures Tokens(ShowNat(a) + gap1 + ShowNat(b) + gap2 + ShowNat(c)) == [ShowNat(a), ShowNat(b), ShowNat(c)]
  {
    NumeralIsPlain(a);
    NumeralIsPlain(b);
    NumeralIsPlain(c);
    ThreeTokens(ShowNat(a), gap1, ShowNat(b), gap2, ShowNat(c));
  }

  /**
   * A vehicle line of three positive numerals reads back as those numbers
   * however much white space separates them.
   */
  lemma VehicleLineRoundTrip(numVehicles: nat, maxSpeed: nat, capacity: nat, gap1: string, gap2: string)
    requires numVehicles > 0 && maxSpeed > 0 && capacity > 0
    requires |gap1| > 0 && AllWhitespace(gap1) && |gap2| > 0 && AllWhitespace(gap2)
    ensures ParseVehicleLine(ShowNat(numVehicles) + gap1 + ShowNat(maxSpeed) + gap2 + ShowNat(capacity)) ==
      Ok(VehicleConfig(numVehicles, maxSpeed as real, capacity as real))
  {
    NumeralTokens(numVehicles, gap1, maxSpeed, gap2, capacity);
    NumeralReadsBack(numVehicles);
    TwoFloats(maxSpeed, capacity);
    VehicleLineFromTokens(ShowNat(numVehicles) + gap1 + ShowNat(maxSpeed) + gap2 + ShowNat(capacity),
      numVehicles, maxSpeed as real, capacity as real);
  }

  /** The same line reads back the same way when the tokens go through `Number`. */
  lemma VehicleLineNumberRoundTrip(numVehicles: nat, maxSpeed: nat, capacity: nat, gap1: string, gap2: string)
    requires numVehicles > 0 && maxSpeed > 0 && capacity > 0
    requires |gap1| > 0 && AllWhitespace(gap1) && |gap2| > 0 && AllWhitespace(gap2)
    ensures ParseVehicleLineNumber(ShowNat(numVehicles) + gap1 + ShowNat(maxSpeed) + gap2 + ShowNat(capacity)) ==
      Ok(VehicleConfig(numVehicles, maxSpeed as real, capacity as real))
  {
    NumeralTokens(numVehicles, gap1, maxSpeed, gap2, capacity);
    NumeralReadsBack(numVehicles);
    NumeralReadsBack(maxSpeed);
    NumeralReadsBack(capacity);
    VehicleLineNumberFromTokens(ShowNat(numVehicles) + gap1 + ShowNat(maxSpeed) + gap2 + ShowNat(capacity),
      numVehicles, maxSpeed as real, capacity as real);
  }

  /** Two numerals parted by a white-space run are two tokens. */
  lemma TwoNumeralTokens(a: nat, gap: string, b: nat)
    requires |gap| > 0 && AllWhitespace(gap)
    ensures |Tokens(ShowNat(a) + gap + ShowNat(b))| == 2
  {
    var x, y := ShowNat(a), ShowNat(b);
    var line := x + gap + y;
    NumeralIsPlain(a);
    NumeralIsPlain(b);
    assert line[0] == x[0] && line[|line| - 1] == y[|y| - 1];
    TrimOfTrimmed(line);
    TwoRuns(x, gap, y);
  }

  /** A vehicle line with one token missing is refused on its field count. */
  lemma VehicleLineRejectsTwoFields(numVehicles: nat, maxSpeed: nat, gap: string)
    requires |gap| > 0 && AllWhitespace(gap)
    ensures ParseVehicleLine(ShowNat(numVehicles) + gap + ShowNat(maxSpeed)) == Err(WrongFieldCount(3, 2))
  {
    TwoNumeralTokens(numVehicles, gap, maxSpeed);
  }

  /** A numeral with one fraction digit holds no white space, and `parseInt` reads its integer part. */
  lemma FractionalCountPlain(n: nat, tenths: nat)
    requires 0 < tenths < 10
    ensures |ShowNat(n) + ['.', DigitChar(tenths)]| > 0
    ensures NoWhitespace(ShowNat(n) + ['.', DigitChar(tenths)])
    ensures ParseInt(ShowNat(n) + ['.', DigitChar(tenths)]) == Some(n)
  {
    var count := ShowNat(n) + ['.', DigitChar(tenths)];
    NumeralIsPlain(n);
    DigitIsPlain(DigitChar(tenths));
    assert forall i :: 0 <= i < |ShowNat(n)| ==> count[i] == ShowNat(n)[i];
    ParseIntOfNumeral(n, ['.', DigitChar(tenths)]);
  }

  /** `Number` reads a numeral with one non-zero fraction digit as a number that is not an integer. */
  lemma FractionalCountNotInteger(n: nat, tenths: nat)
    requires 0 < tenths < 10
    ensures ToNumber(ShowNat(n) + ['.', DigitChar(tenths)]).Some?
    ensures !IsInteger(ToNumber(ShowNat(n) + ['.', DigitChar(tenths)]).value)
  {
    ReadOneDecimal(n, tenths);
    var x := n as real + tenths as real / 10.0;
    assert x.Floor == n by {
      assert n as real <= x < n as real + 1.0;
    }
  }

  /** A numeral with a fraction digit and two numerals, one space apart, are the three tokens of the line. */
  lemma FractionalTokens(n: nat, tenths: nat, b: nat, c: nat)
    requires 0 < tenths < 10
    ensures Tokens(ShowNat(n) + ['.', DigitChar(tenths)] + " " + ShowNat(b) + " " + ShowNat(c))
      == [ShowNat(n) + ['.', DigitChar(tenths)], ShowNat(b), ShowNat(c)]
  {
    FractionalCountPlain(n, tenths);
    NumeralIsPlain(b);
    NumeralIsPlain(c);
    ThreeTokens(ShowNat(n) + ['.', DigitChar(tenths)], " ", ShowNat(b), " ", ShowNat(c));
  }

  /** A vehicle count with a fraction digit: `parseInt` keeps its integer part and the line is accepted. */
  lemma FractionalCountAccepted(numVehicles: nat, tenths: nat, maxSpeed: nat, capacity: nat)
    requires numVehicles > 0 && 0 < tenths < 10 && maxSpeed > 0 && capacity > 0
    ensures ParseVehicleLine(ShowNat(numVehicles) + ['.', DigitChar(tenths)] + " " + ShowNat(maxSpeed) + " " + ShowNat(capacity))
      == Ok(VehicleConfig(numVehicles, maxSpeed as real, capacity as real))
  {
    FractionalTokens(numVehicles, tenths, maxSpeed, capacity);
    FractionalCountPlain(numVehicles, tenths);
    TwoFloats(maxSpeed, capacity);
    VehicleLineFromTokens(ShowNat(numVehicles) + ['.', DigitChar(tenths)] + " " + ShowNat(maxSpeed) + " " + ShowNat(capacity),
      numVehicles, maxSpeed as real, capacity as real);
  }

  /** A line of three tokens whose first `Number` reads as a number with a fraction is refused on the vehicle count. */
  lemma VehicleLineNumberRefusesFraction(line: string)
    requires |Tokens(line)| == 3
    requires ToNumber(Tokens(line)[0]).Some? && !IsInteger(ToNumber(Tokens(line)[0]).value)
    requires ToNumber(Tokens(line)[1]).Some? && ToNumber(Tokens(line)[2]).Some?
    ensures ParseVehicleLineNumber(line) == Err(NotPositiveInteger)
  {
  }

  /** The same line with `Number`: the fraction is kept and the vehicle count is refused. */
  lemma FractionalCountRefused(numVehicles: nat, tenths: nat, maxSpeed: nat, capacity: nat)
    requires 0 < tenths < 10
    ensures ParseVehicleLineNumber(ShowNat(numVehicles) + ['.', DigitChar(tenths)] + " " + ShowNat(maxSpeed) + " " + ShowNat(capacity))
      == Err(NotPositiveInteger)
  {
    FractionalTokens(numVehicles, tenths, maxSpeed, capacity);
    FractionalCountNotInteger(numVehicles, tenths);
    NumeralReadsBack(maxSpeed);
    NumeralReadsBack(capacity);
    VehicleLineNumberRefusesFraction(ShowNat(numVehicles) + ['.', DigitChar(tenths)] + " " + ShowNat(maxSpeed) + " " + ShowNat(capacity));
  }

  /** A minus sign and a numeral form a field without white space that `parseFloat` reads as negative. */
  lemma NegativeNumeral(n: nat)
    ensures |['-'] + ShowNat(n)| > 0 && NoWhitespace(['-'] + ShowNat(n))
    ensures ParseFloat(['-'] + ShowNat(n)) == Some(-(n as real))
  {
    var b := ['-'] + ShowNat(n);
    NumeralIsPlain(n);
    assert forall i :: 1 <= i < |b| ==> b[i] == ShowNat(n)[i - 1];
    ParseFloatOfNegativeNumeral(n);
  }

  /** A negated numeral and a numeral one space apart are the two fields of the line. */
  lemma NegativeFields(a: nat, b: nat)
    ensures Fields(['-'] + ShowNat(a) + " " + ShowNat(b)) == [['-'] + ShowNat(a), ShowNat(b)]
  {
    NegativeNumeral(a);
    NumeralIsPlain(b);
    TwoFields(['-'] + ShowNat(a), ShowNat(b));
  }

  /** A line of two fields, the first a negative number: accepted unchecked, refused checked. */
  lemma NegativeFirstField(line: string, a: string, b: string, baseCharge: real, totalPackages: int)
    requires Fields(line) == [a, b]
    requires ParseFloat(a) == Some(baseCharge) && ParseInt(b) == Some(totalPackages)
    requires baseCharge < 0.0
    ensures ParseFirstLineUnchecked(line) == Ok(FirstLine(baseCharge, totalPackages))
    ensures ParseFirstLine(line) == Err(NegativeValue)
  {
    FirstLineVariantsAgree(line);
  }

  /**
   * A negative base charge: the single-file programs' parser accepts it
   * and the checked parser refuses it.
   */
  lemma NegativeBaseCharge(baseCharge: nat, totalPackages: nat)
    requires baseCharge > 0
    ensures ParseFirstLineUnchecked(['-'] + ShowNat(baseCharge) + " " + ShowNat(totalPackages))
      == Ok(FirstLine(-(baseCharge as real), totalPackages))
    ensures ParseFirstLine(['-'] + ShowNat(baseCharge) + " " + ShowNat(totalPackages)) == Err(NegativeValue)
  {
    NegativeFields(baseCharge, totalPackages);
    NegativeNumeral(baseCharge);
    NumeralReadsBack(totalPackages);
    NegativeFirstField(['-'] + ShowNat(baseCharge) + " " + ShowNat(totalPackages),
      ['-'] + ShowNat(baseCharge), ShowNat(totalPackages), -(baseCharge as real), totalPackages);
  }
}
