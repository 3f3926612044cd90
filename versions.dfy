/**
 * Version arithmetic and validation of the gitflow knife plugin: the TYPE_INDEX
 * table, `bump_type`, `bump_version` (with `manual_bump_version`),
 * `valid_version?` and `validate_version!`.
 */
module Versions {
  import opened Options
  import opened RubyText

  /** How an invocation ends: normally, through `Kernel#exit` with a status, or with an uncaught exception. */
  datatype Outcome = Completed | Exited(status: int) | Raised

  /** A value, or the outcome that ended the invocation before it could be produced. */
  datatype Result<+T> = Ok(value: T) | Stop(outcome: Outcome)

  // ---------------------------------------------------------------------------
  // Validation
  // ---------------------------------------------------------------------------

  /**
   * `isNumeric(k)` stands for "`Float(k)` returns without raising". Ruby's float
   * grammar is not modelled; these are the only facts about it that the proofs use.
   */
  ghost predicate FloatAxioms(isNumeric: string -> bool)
  {
    && !isNumeric([])
    && (forall s :: s != [] && IsDigits(s) ==> isNumeric(s))
    && (forall s :: s != [] && IsLetters(s) ==> !isNumeric(s))
  }

  /**
   * `valid_version?` returns true: three keys, and `Float` accepts the first. The
   * `any?` of line 266 stops at the first key whose block answers true, and a key
   * that `Float` rejects never answers false (see `ValidationRaises`).
   */
  predicate ValidVersion(isNumeric: string -> bool, version: string)
  {
    var keys := Split(version, '.');
    |keys| == 3 && isNumeric(keys[0])
  }

  /**
   * `valid_version?` raises. In `rescue false`, `false` is the list of exception
   * classes to catch, not the value of the clause; when `Float` rejects the first
   * key, Ruby finds no class in that list and raises a `TypeError` that nothing
   * catches.
   */
  predicate ValidationRaises(isNumeric: string -> bool, version: string)
  {
    var keys := Split(version, '.');
    |keys| == 3 && !isNumeric(keys[0])
  }

  /**
   * `valid_version?(version)`: false for a key count other than three (the `&&`
   * skips `any?`), true when `Float` accepts the first key, and an exception otherwise.
   */
  function CheckVersion(isNumeric: string -> bool, version: string): (r: Result<bool>)
    ensures r == Ok(true) <==> ValidVersion(isNumeric, version)
    ensures r == Ok(false) <==> |Split(version, '.')| != 3
    ensures r.Stop? <==> ValidationRaises(isNumeric, version)
    ensures r.Stop? ==> r.outcome == Raised
  {
    var keys := Split(version, '.');
    if |keys| != 3 then Ok(false)
    else if isNumeric(keys[0]) then Ok(true)
    else Stop(Raised)
  }

  /** `validate_version!`: the outcome that stops the run, if any. A nil version is let through. */
  function ValidateVersion(isNumeric: string -> bool, version: Option<string>): (halt: Option<Outcome>)
    ensures halt.None? <==> version.None? || ValidVersion(isNumeric, version.value)
    ensures halt.Some? ==>
              version.Some? && halt.value == (if ValidationRaises(isNumeric, version.value) then Raised else Exited(1))
  {
    if version.None? then None
    else
      match CheckVersion(isNumeric, version.value)
      case Ok(valid) => if valid then None else Some(Exited(1))
      case Stop(outcome) => Some(outcome)
  }

  /** A version is rejected with status 1 unless it splits into exactly three keys, whatever they are. */
  lemma ValidNeedsThreeKeys(isNumeric: string -> bool, version: string)
    requires |Split(version, '.')| != 3
    ensures !ValidVersion(isNumeric, version) && !ValidationRaises(isNumeric, version)
    ensures ValidateVersion(isNumeric, Some(version)) == Some(Exited(1))
  {
  }

  /**
   * Three dot-free keys, the last one non-empty: only the first key decides. The
   * version is valid when `Float` accepts it, and the check raises otherwise,
   * whatever the other two keys are.
   */
  lemma ValidThreeKeys(isNumeric: string -> bool, a: string, b: string, c: string)
    requires '.' !in a && '.' !in b && '.' !in c && c != []
    ensures CheckVersion(isNumeric, Join([a, b, c], '.')) == if isNumeric(a) then Ok(true) else Stop(Raised)
    ensures ValidateVersion(isNumeric, Some(Join([a, b, c], '.'))) == if isNumeric(a) then None else Some(Raised)
  {
    SplitJoin([a, b, c], '.');
    var keys := Split(Join([a, b, c], '.'), '.');
    assert keys[0] == a;
  }

  /** "1.2.3", and also "1.x.y", are accepted. */
  lemma ValidatorAccepts(isNumeric: string -> bool)
    requires FloatAxioms(isNumeric)
    ensures ValidVersion(isNumeric, "1.2.3")
    ensures ValidVersion(isNumeric, "1.x.y")
  {
    assert Join(["1", "2", "3"], '.') == "1.2.3";
    ValidThreeKeys(isNumeric, "1", "2", "3");
    assert Join(["1", "x", "y"], '.') == "1.x.y";
    ValidThreeKeys(isNumeric, "1", "x", "y");
  }

  /** "a.b.c" and "x.1.y" make the validator raise: their first key is not numeric. */
  lemma ValidatorRaisesOnLetters(isNumeric: string -> bool)
    requires FloatAxioms(isNumeric)
    ensures ValidateVersion(isNumeric, Some("a.b.c")) == Some(Raised)
    ensures ValidateVersion(isNumeric, Some("x.1.y")) == Some(Raised)
  {
    assert Join(["a", "b", "c"], '.') == "a.b.c";
    assert IsLetters("a");
    ValidThreeKeys(isNumeric, "a", "b", "c");
    assert Join(["x", "1", "y"], '.') == "x.1.y";
    assert IsLetters("x");
    ValidThreeKeys(isNumeric, "x", "1", "y");
  }

  /** "1.2", "1.2.3.4" and "" are rejected whatever `Float` accepts: they do not have three keys. */
  lemma ValidatorRejectsArity(isNumeric: string -> bool)
    ensures ValidateVersion(isNumeric, Some("1.2")) == Some(Exited(1))
    ensures ValidateVersion(isNumeric, Some("1.2.3.4")) == Some(Exited(1))
    ensures ValidateVersion(isNumeric, Some("")) == Some(Exited(1))
  {
    assert Join(["1", "2"], '.') == "1.2";
    SplitJoin(["1", "2"], '.');
    assert Join(["1", "2", "3", "4"], '.') == "1.2.3.4";
    SplitJoin(["1", "2", "3", "4"], '.');
    SplitJoin([], '.');
  }

  /**
   * The evidently intended `valid_version?`, with `rescue; false` (a bare rescue
   * whose value is false): three keys, at least one of which `Float` accepts.
   */
  predicate IntendedValidVersion(isNumeric: string -> bool, version: string)
  {
    var keys := Split(version, '.');
    |keys| == 3 && exists k :: 0 <= k < |keys| && isNumeric(keys[k])
  }

  /** The intended check accepts three keys exactly when any one of them is numeric, at any position. */
  lemma IntendedValidThreeKeys(isNumeric: string -> bool, a: string, b: string, c: string)
    requires '.' !in a && '.' !in b && '.' !in c && c != []
    ensures IntendedValidVersion(isNumeric, Join([a, b, c], '.')) <==> isNumeric(a) || isNumeric(b) || isNumeric(c)
  {
    SplitJoin([a, b, c], '.');
    var keys := Split(Join([a, b, c], '.'), '.');
    assert keys[0] == a && keys[1] == b && keys[2] == c;
  }

  /**
   * The check as written agrees with the intended one on every version it accepts;
   * where they differ, the one as written raises.
   */
  lemma WrittenCheckAgreesOrRaises(isNumeric: string -> bool, version: string)
    ensures ValidVersion(isNumeric, version) ==> IntendedValidVersion(isNumeric, version)
    ensures IntendedValidVersion(isNumeric, version) != ValidVersion(isNumeric, version) ==>
      ValidationRaises(isNumeric, version)
  {
  }

  /**
   * The inputs that show the difference: "x.1.y" is intended to pass and "a.b.c"
   * to exit with status 1, but the check as written raises on both.
   */
  lemma RescueClauseRaises(isNumeric: string -> bool)
    requires FloatAxioms(isNumeric)
    ensures IntendedValidVersion(isNumeric, "x.1.y") && ValidateVersion(isNumeric, Some("x.1.y")) == Some(Raised)
    ensures !IntendedValidVersion(isNumeric, "a.b.c") && ValidateVersion(isNumeric, Some("a.b.c")) == Some(Raised)
  {
    ValidatorRaisesOnLetters(isNumeric);
    assert Join(["x", "1", "y"], '.') == "x.1.y";
    assert IsDigits("1");
    IntendedValidThreeKeys(isNumeric, "x", "1", "y");
    assert Join(["a", "b", "c"], '.') == "a.b.c";
    assert IsLetters("a") && IsLetters("b") && IsLetters("c");
    IntendedValidThreeKeys(isNumeric, "a", "b", "c");
  }

  // ---------------------------------------------------------------------------
  // Bump kinds
  // ---------------------------------------------------------------------------

  datatype BumpKind = Major | Minor | Patch | Manual

  /** The key of each kind in TYPE_INDEX. */
  function Name(kind: BumpKind): string
  {
    match kind
    case Major => "major"
    case Minor => "minor"
    case Patch => "patch"
    case Manual => "manual"
  }

  /** The value of each kind in TYPE_INDEX: the version slot it bumps (3 for manual). */
  function Index(kind: BumpKind): nat
  {
    match kind
    case Major => 0
    case Minor => 1
    case Patch => 2
    case Manual => 3
  }

  /** `TYPE_INDEX[token.to_sym]`: the kind whose key is `token`, or nil. */
  function TypeIndex(token: string): (kind: Option<BumpKind>)
    ensures kind.Some? ==> Name(kind.value) == token
    ensures kind.None? ==> forall k: BumpKind :: Name(k) != token
  {
    if token == "major" then Some(Major)
    else if token == "minor" then Some(Minor)
    else if token == "patch" then Some(Patch)
    else if token == "manual" then Some(Manual)
    else None
  }

  /** `bump_type`: the kind named by the first argument, patch when there is no argument. */
  function BumpType(nameArgs: seq<string>): (kind: Option<BumpKind>)
    ensures nameArgs == [] ==> kind == Some(Patch)
    ensures nameArgs != [] ==> (kind.Some? <==> exists k: BumpKind :: Name(k) == nameArgs[0])
    ensures kind.Some? && nameArgs != [] ==> Name(kind.value) == nameArgs[0]
  {
    TypeIndex(if nameArgs == [] then "patch" else nameArgs[0])
  }

  /** Every key of TYPE_INDEX is mapped to its own kind, and the kinds have the indices 0 to 3. */
  lemma TypeIndexTable()
    ensures forall k: BumpKind :: TypeIndex(Name(k)) == Some(k)
    ensures Index(Major) == 0 && Index(Minor) == 1 && Index(Patch) == 2 && Index(Manual) == 3
  {
  }

  // ---------------------------------------------------------------------------
  // The bump
  // ---------------------------------------------------------------------------

  /** Every key of the version is a (possibly empty) run of decimal digits, so `to_i` reads it exactly. */
  predicate DigitKeys(version: string)
  {
    var keys := Split(version, '.');
    forall k :: 0 <= k < |keys| ==> IsDigits(keys[k])
  }

  /** `keys.collect { |i| i.to_i }` for all-digit keys. */
  function ToInts(keys: seq<string>): (v: seq<nat>)
    requires forall k :: 0 <= k < |keys| ==> IsDigits(keys[k])
    ensures |v| == |keys|
  {
    seq(|keys|, k requires 0 <= k < |keys| => DigitsValue(keys[k]))
  }

  /** The `to_s` of each component, as `join` takes it. */
  function ToStrings(v: seq<nat>): (keys: seq<string>)
    ensures |keys| == |v|
    ensures forall k :: 0 <= k < |keys| ==> keys[k] != [] && IsDigits(keys[k]) && '.' !in keys[k]
  {
    seq(|v|, k requires 0 <= k < |v| => Decimal(v[k]))
  }

  /** `version_array[i] = x` on a Ruby array: overwrites slot `i`, or appends when `i` is the size. */
  function Store(v: seq<nat>, i: nat, x: nat): seq<nat>
    requires i <= |v|
  {
    if i < |v| then v[i := x] else v + [x]
  }

  /** The loop of line 248: sets the slots `j`, ..., 2 to zero, in that order. */
  function ResetFrom(v: seq<nat>, j: nat): seq<nat>
    requires j <= |v|
    decreases 3 - j
  {
    if j > 2 then v else ResetFrom(Store(v, j, 0), j + 1)
  }

  /** `version_array` after lines 247-248 with bump index `i`. */
  function Incremented(v: seq<nat>, i: nat): seq<nat>
    requires i <= 2 && i < |v|
  {
    ResetFrom(v[i := v[i] + 1], i + 1)
  }

  function Max(a: nat, b: nat): nat { if a < b then b else a }

  lemma {:induction false} ResetFromShape(v: seq<nat>, j: nat)
    requires j <= |v| && j <= 3
    ensures var r := ResetFrom(v, j);
      && |r| == Max(|v|, 3)
      && r[..j] == v[..j]
      && (forall k :: j <= k < 3 ==> r[k] == 0)
      && (forall k :: 3 <= k < |v| ==> r[k] == v[k])
    decreases 3 - j
  {
    if j <= 2 {
      var w := Store(v, j, 0);
      ResetFromShape(w, j + 1);
      assert w[..j] == v[..j];
    }
  }

  /**
   * The bumped slot goes up by one, the slots before it are kept, the slots after it
   * up to the third are zero (the array grows to three slots if it was shorter), and
   * the slots beyond the third are kept.
   */
  lemma IncrementedShape(v: seq<nat>, i: nat)
    requires i <= 2 && i < |v|
    ensures var r := Incremented(v, i);
      && |r| == Max(|v|, 3)
      && r[..i] == v[..i]
      && r[i] == v[i] + 1
      && (forall k :: i < k < 3 ==> r[k] == 0)
      && (forall k :: 3 <= k < |v| ==> r[k] == v[k])
  {
    var w := v[i := v[i] + 1];
    ResetFromShape(w, i + 1);
    assert w[..i + 1][..i] == v[..i];
  }

  /** Lexicographic order on version components. */
  predicate LexLess(a: seq<nat>, b: seq<nat>)
  {
    exists k :: 0 <= k < |a| && k < |b| && a[..k] == b[..k] && a[k] < b[k]
  }

  /** A bump always moves the version up in lexicographic order. */
  lemma IncrementedIsGreater(v: seq<nat>, i: nat)
    requires i <= 2 && i < |v|
    ensures LexLess(v, Incremented(v, i))
  {
    IncrementedShape(v, i);
  }

  /**
   * `bump_version(old_version, bump_type)` where `nameArgs` are the command's
   * positional arguments (the manual path reads `name_args.last`).
   */
  function Bump(isNumeric: string -> bool, oldVersion: string, kind: Option<BumpKind>,
                nameArgs: seq<string>): Result<string>
    requires kind != Some(Manual) ==> DigitKeys(oldVersion)
  {
    if kind == Some(Manual) then
      var arg := if nameArgs == [] then None else Some(nameArgs[|nameArgs| - 1]);
      match ValidateVersion(isNumeric, arg)
      case Some(halt) => Stop(halt)
      case None =>
        if arg.None? then Stop(Raised)   // nil.split
        else Ok(Join(Split(arg.value, '.'), '.'))
    else
      var v := ToInts(Split(oldVersion, '.'));
      if kind.None? || Index(kind.value) >= |v| then Stop(Raised)   // version_array[nil], nil + 1
      else Ok(Join(ToStrings(Incremented(v, Index(kind.value))), '.'))
  }

  /**
   * The imperative bump: `version_array` is an array with room for three slots of
   * which the first `size` are in use, so that the writes of line 248 past the end
   * grow it as a Ruby array grows.
   */
  method BumpVersion(isNumeric: string -> bool, oldVersion: string, kind: Option<BumpKind>,
                     nameArgs: seq<string>) returns (r: Result<string>)
    requires kind != Some(Manual) ==> DigitKeys(oldVersion)
    ensures r == Bump(isNumeric, oldVersion, kind, nameArgs)
  {
    if kind == Some(Manual) {
      // manual_bump_version
      var version := if nameArgs == [] then None else Some(nameArgs[|nameArgs| - 1]);
      var halt := ValidateVersion(isNumeric, version);
      if halt.Some? {
        return Stop(halt.value);
      }
      if version.None? {
        return Stop(Raised);
      }
      return Ok(Join(Split(version.value, '.'), '.'));
    }
    var keys := Split(oldVersion, '.');
    var versionArray := new nat[Max(|keys|, 3)];
    var size := |keys|;
    var k := 0;
    while k < |keys|
      invariant 0 <= k <= |keys|
      invariant versionArray[..k] == ToInts(keys)[..k]
    {
      versionArray[k] := DigitsValue(keys[k]);
      k := k + 1;
    }
    assert versionArray[..size] == ToInts(keys);
    if kind.None? || Index(kind.value) >= size {
      return Stop(Raised);
    }
    var i := Index(kind.value);
    versionArray[i] := versionArray[i] + 1;
    var j := i + 1;
    while j <= 2
      invariant i + 1 <= j <= 3
      invariant j <= size <= versionArray.Length
      invariant ResetFrom(versionArray[..size], j) == Incremented(ToInts(keys), i)
    {
      ghost var before := versionArray[..size];
      versionArray[j] := 0;
      if j == size {
        size := size + 1;
      }
      assert versionArray[..size] == Store(before, j, 0);
      j := j + 1;
    }
    return Ok(Join(ToStrings(versionArray[..size]), '.'));
  }

  // ---------------------------------------------------------------------------
  // What a bump promises
  // ---------------------------------------------------------------------------

  /** Joined numerals split back into the same numerals, and `to_i` reads back the components. */
  lemma NumeralsRoundTrip(w: seq<nat>)
    requires w != []
    ensures Split(Join(ToStrings(w), '.'), '.') == ToStrings(w)
    ensures DigitKeys(Join(ToStrings(w), '.'))
    ensures ToInts(Split(Join(ToStrings(w), '.'), '.')) == w
  {
    var keys := ToStrings(w);
    SplitJoin(keys, '.');
    forall k | 0 <= k < |w| ensures ToInts(keys)[k] == w[k] {
      DecimalRoundTrip(w[k]);
    }
  }

  /** The version string "a.b.c". */
  function Triple(a: nat, b: nat, c: nat): string
  {
    Join(ToStrings([a, b, c]), '.')
  }

  lemma TripleText(a: nat, b: nat, c: nat)
    ensures Triple(a, b, c) == Decimal(a) + "." + Decimal(b) + "." + Decimal(c)
  {
    assert ToStrings([a, b, c]) == [Decimal(a), Decimal(b), Decimal(c)];
    Join3(Decimal(a), Decimal(b), Decimal(c), '.');
  }

  /** How a bump of major, minor or patch unfolds on the components. */
  lemma BumpComponents(isNumeric: string -> bool, oldVersion: string, kind: BumpKind, nameArgs: seq<string>)
    requires kind != Manual && DigitKeys(oldVersion)
    ensures var prior := ToInts(Split(oldVersion, '.'));
      Bump(isNumeric, oldVersion, Some(kind), nameArgs) ==
        if Index(kind) < |prior| then Ok(Join(ToStrings(Incremented(prior, Index(kind))), '.')) else Stop(Raised)
  {
  }

  /** For "a.b.c": patch gives "a.b.(c+1)", minor "a.(b+1).0", major "(a+1).0.0". */
  lemma BumpTriple(isNumeric: string -> bool, a: nat, b: nat, c: nat, nameArgs: seq<string>)
    ensures DigitKeys(Triple(a, b, c))
    ensures Bump(isNumeric, Triple(a, b, c), Some(Patch), nameArgs) == Ok(Triple(a, b, c + 1))
    ensures Bump(isNumeric, Triple(a, b, c), Some(Minor), nameArgs) == Ok(Triple(a, b + 1, 0))
    ensures Bump(isNumeric, Triple(a, b, c), Some(Major), nameArgs) == Ok(Triple(a + 1, 0, 0))
  {
    var v := [a, b, c];
    NumeralsRoundTrip(v);
    BumpComponents(isNumeric, Triple(a, b, c), Patch, nameArgs);
    BumpComponents(isNumeric, Triple(a, b, c), Minor, nameArgs);
    BumpComponents(isNumeric, Triple(a, b, c), Major, nameArgs);
    IncrementedShape(v, 2);
    assert Incremented(v, 2) == [a, b, c + 1];
    IncrementedShape(v, 1);
    assert Incremented(v, 1) == [a, b + 1, 0];
    IncrementedShape(v, 0);
    assert Incremented(v, 0) == [a + 1, 0, 0];
  }

  lemma TripleExamples()
    ensures Triple(1, 2, 3) == "1.2.3" && Triple(1, 2, 4) == "1.2.4"
    ensures Triple(1, 3, 0) == "1.3.0" && Triple(2, 0, 0) == "2.0.0"
  {
    TripleOfDigits(1, 2, 3);
    TripleOfDigits(1, 2, 4);
    TripleOfDigits(1, 3, 0);
    TripleOfDigits(2, 0, 0);
  }

  /** A version of three one-digit components is five characters long. */
  lemma TripleOfDigits(a: nat, b: nat, c: nat)
    requires a < 10 && b < 10 && c < 10
    ensures Triple(a, b, c) == [('0' as int + a) as char, '.', ('0' as int + b) as char, '.', ('0' as int + c) as char]
  {
    TripleText(a, b, c);
  }

  /** The bumps of 1.2.3. */
  lemma BumpExamples(isNumeric: string -> bool)
    ensures DigitKeys("1.2.3")
    ensures Bump(isNumeric, "1.2.3", Some(Patch), []) == Ok("1.2.4")
    ensures Bump(isNumeric, "1.2.3", Some(Minor), []) == Ok("1.3.0")
    ensures Bump(isNumeric, "1.2.3", Some(Major), []) == Ok("2.0.0")
  {
    BumpTriple(isNumeric, 1, 2, 3, []);
    TripleExamples();
  }

  /**
   * A manual bump ignores the prior version; when the last argument is not a valid
   * version it stops, by raising if its first key is not numeric and with status 1
   * if it does not have three keys, and otherwise yields that argument split and
   * re-joined, which is the argument itself exactly when it does not end with a dot.
   */
  lemma BumpManual(isNumeric: string -> bool, oldVersion: string, otherVersion: string, nameArgs: seq<string>)
    requires nameArgs != []
    ensures var arg := nameArgs[|nameArgs| - 1];
      && Bump(isNumeric, oldVersion, Some(Manual), nameArgs) == Bump(isNumeric, otherVersion, Some(Manual), nameArgs)
      && (!ValidVersion(isNumeric, arg) ==>
            Bump(isNumeric, oldVersion, Some(Manual), nameArgs)
              == Stop(if ValidationRaises(isNumeric, arg) then Raised else Exited(1)))
      && (ValidVersion(isNumeric, arg) ==>
            (Bump(isNumeric, oldVersion, Some(Manual), nameArgs) == Ok(arg) <==> !EndsWith(arg, '.')))
  {
    JoinSplit(nameArgs[|nameArgs| - 1], '.');
  }

  /** An unknown kind (nil from TYPE_INDEX) ends the run with an exception. */
  lemma BumpUnknownKind(isNumeric: string -> bool, oldVersion: string, nameArgs: seq<string>)
    requires DigitKeys(oldVersion)
    requires nameArgs != [] && forall k: BumpKind :: Name(k) != nameArgs[0]
    ensures Bump(isNumeric, oldVersion, BumpType(nameArgs), nameArgs) == Stop(Raised)
  {
  }

  /**
   * A bump of major, minor or patch succeeds exactly when the prior version has a key
   * at the bumped index; the components read back from the result are the prior ones
   * incremented, and they are lexicographically greater.
   */
  lemma BumpIncreases(isNumeric: string -> bool, oldVersion: string, kind: BumpKind, nameArgs: seq<string>)
    requires kind != Manual && DigitKeys(oldVersion)
    ensures var prior := ToInts(Split(oldVersion, '.'));
      && (Bump(isNumeric, oldVersion, Some(kind), nameArgs).Ok? <==> Index(kind) < |prior|)
      && (Index(kind) < |prior| ==>
            var v := Bump(isNumeric, oldVersion, Some(kind), nameArgs).value;
            && DigitKeys(v)
            && ToInts(Split(v, '.')) == Incremented(prior, Index(kind))
            && LexLess(prior, ToInts(Split(v, '.'))))
  {
    var prior := ToInts(Split(oldVersion, '.'));
    BumpComponents(isNumeric, oldVersion, kind, nameArgs);
    if Index(kind) < |prior| {
      var w := Incremented(prior, Index(kind));
      IncrementedShape(prior, Index(kind));
      IncrementedIsGreater(prior, Index(kind));
      NumeralsRoundTrip(w);
    }
  }

  /**
   * Every version a bump produces from a version of at most three keys passes the
   * validator, so a started branch can later be finished.
   */
  lemma BumpedIsValid(isNumeric: string -> bool, oldVersion: string, kind: Option<BumpKind>, nameArgs: seq<string>)
    requires FloatAxioms(isNumeric)
    requires kind != Some(Manual) ==> DigitKeys(oldVersion)
    requires |Split(oldVersion, '.')| <= 3
    requires Bump(isNumeric, oldVersion, kind, nameArgs).Ok?
    ensures ValidVersion(isNumeric, Bump(isNumeric, oldVersion, kind, nameArgs).value)
  {
    if kind == Some(Manual) {
      var arg := nameArgs[|nameArgs| - 1];
      SplitShape(arg, '.');
      SplitJoin(Split(arg, '.'), '.');
    } else {
      var prior := ToInts(Split(oldVersion, '.'));
      BumpComponents(isNumeric, oldVersion, kind.value, nameArgs);
      var w := Incremented(prior, Index(kind.value));
      IncrementedShape(prior, Index(kind.value));
      NumeralsRoundTrip(w);
      assert ToStrings(w)[0] != [] && IsDigits(ToStrings(w)[0]);
    }
  }
}
