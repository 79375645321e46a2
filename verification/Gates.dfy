/** Gate evaluation for MCP tool calls. */
module Gates {
  import opened Prelude
  import opened Json

  datatype GateAction = AutoAllow | Require | Deny

  /** A gate's argument pattern: absent, not parseable as JSON, or a JSON value. */
  datatype Pattern = Unconditional | Unparseable | Parsed(value: Value)

  datatype Gate = Gate(id: nat, tool: string, pattern: Pattern, action: GateAction)

  datatype Decision = Decision(action: GateAction, gate: Option<nat>)

  /** The first matching gate decides; no match requires an approval. */
  function Decide(gates: seq<Gate>, args: Value): Decision
  {
    if gates == [] then Decision(Require, None)
    else if GateMatches(gates[0], args) then Decision(gates[0].action, Some(gates[0].id))
    else Decide(gates[1..], args)
  }

  predicate GateMatches(gate: Gate, args: Value)
  {
    match gate.pattern
    case Unconditional => true
    case Unparseable => false
    case Parsed(pattern) => PatternMatches(pattern, args)
  }

  predicate PatternMatches(pattern: Value, args: Value)
  {
    && pattern.Object?
    && args.Object?
    && forall f | f in pattern.fields ::
         var actual := Lookup(args.fields, f.key);
         actual.Some? && ValueMatches(f.value, actual.value)
  }

  predicate ValueMatches(expected: Value, actual: Value)
  {
    if expected.Str? && actual.Str? && '*' in expected.s
    then WildcardMatches(expected.s, actual.s)
    else expected == actual
  }

  function StarCount(s: string): nat
  {
    if s == [] then 0 else (if s[0] == '*' then 1 else 0) + StarCount(s[1..])
  }

  /** Index of the first star, or the length when there is none. */
  function FirstStar(s: string): (i: nat)
    ensures i <= |s|
    ensures i < |s| <==> '*' in s
    ensures i < |s| ==> s[i] == '*'
  {
    if s == [] then 0 else if s[0] == '*' then 0 else 1 + FirstStar(s[1..])
  }

  predicate WildcardMatches(pattern: string, actual: string)
  {
    if pattern == "*" then true
    else if StarCount(pattern) != 1 then false
    else
      var cut := FirstStar(pattern);
      if cut == |pattern| then false
      else
        var prefix, suffix := pattern[..cut], pattern[cut + 1..];
        && prefix <= actual
        && EndsWith(actual, suffix)
        && |actual| >= |prefix| + |suffix|
  }

  predicate EndsWith(s: string, suffix: string)
  {
    |suffix| <= |s| && s[|s| - |suffix|..] == suffix
  }

  /** What a pattern with stars is documented to mean: the text around one star, with anything between. */
  ghost predicate SurroundedBy(prefix: string, suffix: string, actual: string)
  {
    exists middle: string :: actual == prefix + middle + suffix
  }

  lemma {:induction false} StarCountConcat(a: string, b: string)
    ensures StarCount(a + b) == StarCount(a) + StarCount(b)
  {
    if a == [] {
      assert a + b == b;
    } else {
      StarCountConcat(a[1..], b);
      assert (a + b)[1..] == a[1..] + b;
    }
  }

  lemma {:induction false} NoStars(s: string)
    ensures StarCount(s) == 0 <==> '*' !in s
  {
    if s != [] {
      NoStars(s[1..]);
      assert s == [s[0]] + s[1..];
    }
  }

  lemma {:induction false} FirstStarOfSplit(prefix: string, suffix: string)
    requires '*' !in prefix
    ensures FirstStar(prefix + "*" + suffix) == |prefix|
  {
    var p := prefix + "*" + suffix;
    if prefix != [] {
      assert p[1..] == prefix[1..] + "*" + suffix;
      FirstStarOfSplit(prefix[1..], suffix);
    }
  }

  /** A pattern with exactly one star matches exactly prefix, anything, suffix. */
  lemma {:induction false} SingleStarMeaning(prefix: string, suffix: string, actual: string)
    requires '*' !in prefix && '*' !in suffix
    ensures WildcardMatches(prefix + "*" + suffix, actual) <==> SurroundedBy(prefix, suffix, actual)
  {
    var p := prefix + "*" + suffix;
    FirstStarOfSplit(prefix, suffix);
    StarCountConcat(prefix + "*", suffix);
    StarCountConcat(prefix, "*");
    NoStars(prefix);
    NoStars(suffix);
    assert p[..|prefix|] == prefix && p[|prefix| + 1..] == suffix;
    if p == "*" {
      assert prefix == "" && suffix == "";
      assert actual == prefix + actual + suffix;
    }
    if WildcardMatches(p, actual) {
      var middle := actual[|prefix|..|actual| - |suffix|];
      assert actual == prefix + middle + suffix;
    }
    if SurroundedBy(prefix, suffix, actual) {
      var middle: string :| actual == prefix + middle + suffix;
      assert actual[|actual| - |suffix|..] == suffix;
    }
  }

  /** A pattern with two or more stars matches nothing. */
  lemma ManyStarsMatchNothing(pattern: string, actual: string)
    requires StarCount(pattern) >= 2
    ensures !WildcardMatches(pattern, actual)
  {
    assert StarCount("*") == 1;
  }

  /** The decision comes from the earliest matching gate, or requires approval when no gate matches. */
  lemma {:induction false} DecideIsFirstMatch(gates: seq<Gate>, args: Value)
    ensures Decide(gates, args).gate.None? <==> forall i | 0 <= i < |gates| :: !GateMatches(gates[i], args)
    ensures Decide(gates, args).gate.None? ==> Decide(gates, args).action == Require
    ensures Decide(gates, args).gate.Some? ==>
              exists i :: 0 <= i < |gates| && GateMatches(gates[i], args)
                       && (forall j | 0 <= j < i :: !GateMatches(gates[j], args))
                       && Decide(gates, args) == Decision(gates[i].action, Some(gates[i].id))
  {
    if gates != [] {
      if GateMatches(gates[0], args) {
        assert GateMatches(gates[0], args) && Decide(gates, args) == Decision(gates[0].action, Some(gates[0].id));
      } else {
        var rest := gates[1..];
        DecideIsFirstMatch(rest, args);
        assert forall i | 0 < i < |gates| :: gates[i] == rest[i - 1];
        if Decide(rest, args).gate.Some? {
          var i :| 0 <= i < |rest| && GateMatches(rest[i], args)
                   && (forall j | 0 <= j < i :: !GateMatches(rest[j], args))
                   && Decide(rest, args) == Decision(rest[i].action, Some(rest[i].id));
          assert gates[i + 1] == rest[i];
        }
      }
    }
  }

  /** A dangerous call is waved through only by an auto-allow gate that no earlier matching gate precedes. */
  lemma AutoAllowNeedsFirstMatch(gates: seq<Gate>, args: Value)
    requires Decide(gates, args).action == AutoAllow
    ensures exists i :: 0 <= i < |gates| && gates[i].action == AutoAllow && GateMatches(gates[i], args)
                     && forall j | 0 <= j < i :: !GateMatches(gates[j], args)
  {
    DecideIsFirstMatch(gates, args);
  }

  // ----- what it means for a gate to match

  /** The argument stored under `key`: the first field with that key. */
  predicate HoldsAt(fields: seq<Field>, key: string, i: nat)
  {
    i < |fields| && fields[i].key == key && forall j | 0 <= j < i :: fields[j].key != key
  }

  /** Equal, except that a starred text stands for the text around its only star with anything in between. */
  ghost predicate Fits(expected: Value, actual: Value)
  {
    if expected.Str? && actual.Str? && '*' in expected.s then
      exists prefix: string, suffix: string ::
        '*' !in prefix && '*' !in suffix && expected.s == prefix + "*" + suffix && SurroundedBy(prefix, suffix, actual.s)
    else expected == actual
  }

  /** Every field the pattern asks for is an argument, and its value fits. */
  ghost predicate Asks(pattern: seq<Field>, args: seq<Field>)
  {
    forall f | f in pattern :: FieldFits(f, args)
  }

  ghost predicate FieldFits(f: Field, args: seq<Field>)
  {
    exists i: nat :: HoldsAt(args, f.key, i) && Fits(f.value, args[i].value)
  }

  /** A gate matches if it has no pattern, or one that is a JSON object all of whose fields the arguments, an object too, fit. */
  lemma GateMeaning(gate: Gate, args: Value)
    ensures GateMatches(gate, args) <==>
              || gate.pattern.Unconditional?
              || (&& gate.pattern.Parsed? && gate.pattern.value.Object? && args.Object?
                  && Asks(gate.pattern.value.fields, args.fields))
  {
    if gate.pattern.Parsed? && gate.pattern.value.Object? && args.Object? {
      forall f | f in gate.pattern.value.fields
        ensures (Lookup(args.fields, f.key).Some? && ValueMatches(f.value, Lookup(args.fields, f.key).value))
                <==> FieldFits(f, args.fields)
      {
        FieldMeaning(f, args.fields);
      }
    }
  }

  lemma FieldMeaning(f: Field, args: seq<Field>)
    ensures (Lookup(args, f.key).Some? && ValueMatches(f.value, Lookup(args, f.key).value))
            <==> FieldFits(f, args)
  {
    if Lookup(args, f.key).Some? {
      var i := LookupPlace(args, f.key);
      ValueMeaning(f.value, args[i].value);
      assert HoldsAt(args, f.key, i);
      assert forall j: nat | HoldsAt(args, f.key, j) :: i == j;
    }
  }

  lemma {:induction false} LookupPlace(fields: seq<Field>, key: string) returns (i: nat)
    requires Lookup(fields, key).Some?
    ensures HoldsAt(fields, key, i) && Lookup(fields, key) == Some(fields[i].value)
  {
    if fields[0].key == key {
      i := 0;
    } else {
      var j := LookupPlace(fields[1..], key);
      i := j + 1;
    }
  }

  lemma ValueMeaning(expected: Value, actual: Value)
    ensures ValueMatches(expected, actual) <==> Fits(expected, actual)
  {
    if expected.Str? && actual.Str? && '*' in expected.s {
      WildcardMeaning(expected.s, actual.s);
    }
  }

  /** A starred pattern matches exactly when it has one star and the text around it surrounds the actual text. */
  lemma WildcardMeaning(pattern: string, actual: string)
    requires '*' in pattern
    ensures WildcardMatches(pattern, actual) <==>
              exists prefix: string, suffix: string ::
                '*' !in prefix && '*' !in suffix && pattern == prefix + "*" + suffix && SurroundedBy(prefix, suffix, actual)
  {
    if WildcardMatches(pattern, actual) {
      var cut := FirstStar(pattern);
      var prefix, suffix := pattern[..cut], pattern[cut + 1..];
      OneStarSplits(pattern);
      SingleStarMeaning(prefix, suffix, actual);
    }
    forall prefix: string, suffix: string |
      '*' !in prefix && '*' !in suffix && pattern == prefix + "*" + suffix && SurroundedBy(prefix, suffix, actual)
      ensures WildcardMatches(pattern, actual)
    {
      SingleStarMeaning(prefix, suffix, actual);
    }
  }

  lemma OneStarSplits(pattern: string)
    requires StarCount(pattern) == 1
    ensures var cut := FirstStar(pattern);
            && cut < |pattern| && pattern == pattern[..cut] + "*" + pattern[cut + 1..]
            && '*' !in pattern[..cut] && '*' !in pattern[cut + 1..]
  {
    NoStars(pattern);
    var cut := FirstStar(pattern);
    var prefix, suffix := pattern[..cut], pattern[cut + 1..];
    SplitAtStar(pattern, cut);
    StarsAround(prefix, suffix);
    NoStars(prefix);
    NoStars(suffix);
  }

  lemma SplitAtStar(pattern: string, cut: nat)
    requires cut < |pattern| && pattern[cut] == '*'
    ensures pattern == pattern[..cut] + "*" + pattern[cut + 1..]
  {
  }

  lemma StarsAround(prefix: string, suffix: string)
    ensures StarCount(prefix + "*" + suffix) == StarCount(prefix) + 1 + StarCount(suffix)
  {
    StarCountConcat(prefix + "*", suffix);
    StarCountConcat(prefix, "*");
    assert StarCount("*") == 1;
  }
}
