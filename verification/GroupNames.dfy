/** Group names with a numbered suffix: recognising, generating and merging them. */
module GroupNames {
  import opened Sequences
  import opened OrderedDicts

  // ---------- Names and suffixes ----------

  predicate IsDigit(c: char) {
    '0' <= c <= '9'
  }

  /** The white space of Python's regular expressions, line feeds apart. */
  predicate IsSpace(c: char) {
    || c == ' ' || c == '\t' || '\U{B}' <= c <= '\r' || '\U{1C}' <= c <= '\U{1F}'
    || c == '\U{85}' || c == '\U{A0}' || c == '\U{1680}' || '\U{2000}' <= c <= '\U{200A}'
    || c == '\U{2028}' || c == '\U{2029}' || c == '\U{202F}' || c == '\U{205F}' || c == '\U{3000}'
  }

  predicate AllDigits(s: string) {
    |s| > 0 && forall i :: 0 <= i < |s| ==> IsDigit(s[i])
  }

  function Digit(n: nat): char
    requires n < 10
  {
    ['0', '1', '2', '3', '4', '5', '6', '7', '8', '9'][n]
  }

  function Decimal(n: nat): string {
    if n < 10 then [Digit(n)] else Decimal(n / 10) + [Digit(n % 10)]
  }

  function Suffixed(name: string, k: nat): string {
    name + " (" + Decimal(k) + ")"
  }

  /** Drops trailing white space but never the first character. */
  function StripEnd(s: string): (r: string)
    ensures |s| > 0 ==> |r| > 0
  {
    if |s| > 1 && IsSpace(s[|s| - 1]) then StripEnd(s[..|s| - 1]) else s
  }

  /** The last opening parenthesis, or the length if there is none. */
  function LastOpen(s: string): (q: nat)
    ensures q <= |s|
  {
    if s == [] then 0
    else if s[|s| - 1] == '(' then |s| - 1
    else
      var q := LastOpen(s[..|s| - 1]);
      if q == |s| - 1 then |s| else q
  }

  /** Whether a name is some text, optional white space, and a number in parentheses. */
  predicate IsNumbered(s: string) {
    var q := LastOpen(s);
    1 <= q && q + 2 < |s| && s[|s| - 1] == ')' && AllDigits(s[q + 1..|s| - 1])
  }

  /** The name without its numbered suffix. */
  function BaseName(s: string): string {
    if IsNumbered(s) then StripEnd(s[..LastOpen(s)]) else s
  }

  lemma {:induction false} DecimalIsDigits(n: nat)
    ensures AllDigits(Decimal(n))
  {
    if n >= 10 {
      DecimalIsDigits(n / 10);
    }
  }

  /** A number of one digit, or the last digit after all the others. */
  lemma {:induction false} DecimalParts(n: nat)
    ensures |Decimal(n)| >= 1 && Decimal(n)[|Decimal(n)| - 1] == Digit(n % 10)
    ensures if n < 10 then |Decimal(n)| == 1 else |Decimal(n)| > 1 && Decimal(n)[..|Decimal(n)| - 1] == Decimal(n / 10)
  {
    if n >= 10 {
      DecimalParts(n / 10);
    }
  }

  lemma DigitIsInjective(a: nat, b: nat)
    requires a < 10 && b < 10 && Digit(a) == Digit(b)
    ensures a == b
  {
  }

  lemma {:induction false} DecimalIsInjective(m: nat, n: nat)
    requires Decimal(m) == Decimal(n)
    ensures m == n
    decreases m
  {
    DecimalParts(m);
    DecimalParts(n);
    DigitIsInjective(m % 10, n % 10);
    if m >= 10 {
      DecimalIsInjective(m / 10, n / 10);
    }
  }

  lemma SuffixesDiffer(name: string, j: nat, k: nat)
    ensures Suffixed(name, j) == Suffixed(name, k) ==> j == k
  {
    if Suffixed(name, j) == Suffixed(name, k) {
      var a, b := Suffixed(name, j), Suffixed(name, k);
      assert a[|name| + 2..|a| - 1] == Decimal(j) && b[|name| + 2..|b| - 1] == Decimal(k);
      DecimalIsInjective(j, k);
    }
  }

  lemma {:induction false} LastOpenBeforeDigits(s: string, t: string)
    requires forall i :: 0 <= i < |t| ==> t[i] != '('
    ensures LastOpen(s + ['('] + t) == |s|
    decreases |t|
  {
    var u := s + ['('] + t;
    if t != [] {
      assert u[..|u| - 1] == s + ['('] + t[..|t| - 1];
      LastOpenBeforeDigits(s, t[..|t| - 1]);
    }
  }

  /** Where the parts of a suffixed name are. */
  lemma SuffixedParts(name: string, d: string)
    ensures var s := name + " (" + d + ")";
            && s == (name + [' ']) + ['('] + (d + [')']) && |s| == |name| + |d| + 3 && s[|s| - 1] == ')'
            && s[|name| + 2..|s| - 1] == d && s[..|name| + 1] == name + [' ']
  {
  }

  lemma StrippingASpace(name: string)
    requires name != [] && StripEnd(name) == name
    ensures StripEnd(name + [' ']) == name
  {
    assert (name + [' '])[..|name|] == name;
  }

  /** A name that stripping leaves alone is the base of each of its suffixed forms. */
  lemma SuffixedHasBase(name: string, k: nat)
    requires name != [] && StripEnd(name) == name
    ensures IsNumbered(Suffixed(name, k)) && BaseName(Suffixed(name, k)) == name
  {
    DecimalIsDigits(k);
    SuffixedParts(name, Decimal(k));
    LastOpenBeforeDigits(name + [' '], Decimal(k) + [')']);
    StrippingASpace(name);
  }

  lemma {:induction false} StrippingOnceIsEnough(s: string)
    ensures StripEnd(StripEnd(s)) == StripEnd(s)
  {
    if |s| > 1 && IsSpace(s[|s| - 1]) {
      StrippingOnceIsEnough(s[..|s| - 1]);
    }
  }

  /** What a numbered name is based on can be numbered again without changing base. */
  lemma BasesTakeSuffixes(s: string, k: nat)
    requires IsNumbered(s)
    ensures BaseName(Suffixed(BaseName(s), k)) == BaseName(s)
  {
    StrippingOnceIsEnough(s[..LastOpen(s)]);
    SuffixedHasBase(BaseName(s), k);
  }

  /** White space and nothing else. */
  predicate AllSpace(s: string) {
    forall i :: 0 <= i < |s| ==> IsSpace(s[i])
  }

  /** Stripping takes off white space alone. */
  lemma {:induction false} StrippedIsSpace(s: string)
    ensures |StripEnd(s)| <= |s| && s[..|StripEnd(s)|] == StripEnd(s) && AllSpace(s[|StripEnd(s)|..])
    ensures |StripEnd(s)| > 1 ==> !IsSpace(StripEnd(s)[|StripEnd(s)| - 1])
  {
    if |s| > 1 && IsSpace(s[|s| - 1]) {
      StrippedIsSpace(s[..|s| - 1]);
    }
  }

  lemma {:induction false} StrippingSpace(stem: string, space: string)
    requires stem != [] && StripEnd(stem) == stem && AllSpace(space)
    ensures StripEnd(stem + space) == stem
  {
    if space == [] {
      assert stem + space == stem;
    } else {
      assert (stem + space)[..|stem + space| - 1] == stem + space[..|space| - 1];
      StrippingSpace(stem, space[..|space| - 1]);
    }
  }

  lemma {:induction false} LastOpenIsOpen(s: string)
    ensures LastOpen(s) < |s| ==> s[LastOpen(s)] == '('
  {
    if s != [] && s[|s| - 1] != '(' {
      LastOpenIsOpen(s[..|s| - 1]);
    }
  }

  /** s is a stem that does not end in white space, some white space, and a number in parentheses. */
  ghost predicate IsStemAndNumber(s: string, stem: string, space: string, number: string) {
    && s == stem + space + "(" + number + ")"
    && stem != [] && (|stem| > 1 ==> !IsSpace(stem[|stem| - 1])) && AllSpace(space) && AllDigits(number)
  }

  /** A name with a base of its own is a stem with a number, and the stem is the base ... */
  lemma NumberedHasStem(s: string) returns (space: string, number: string)
    requires BaseName(s) != s
    ensures IsStemAndNumber(s, BaseName(s), space, number)
  {
    var q := LastOpen(s);
    LastOpenIsOpen(s);
    StrippedIsSpace(s[..q]);
    StrippingOnceIsEnough(s[..q]);
    var stem := StripEnd(s[..q]);
    space, number := s[..q][|stem|..], s[q + 1..|s| - 1];
    assert s[..q] == stem + space;
    assert s == s[..q] + [s[q]] + s[q + 1..|s| - 1] + [s[|s| - 1]];
  }

  /** ... and every stem with a number has the stem as its base. */
  lemma StemIsBase(s: string, stem: string, space: string, number: string)
    requires IsStemAndNumber(s, stem, space, number)
    ensures BaseName(s) == stem != s
  {
    assert s == (stem + space) + ['('] + (number + [')']);
    LastOpenBeforeDigits(stem + space, number + [')']);
    assert LastOpen(s) == |stem + space| && s[LastOpen(s) + 1..|s| - 1] == number && s[..LastOpen(s)] == stem + space;
    StrippingSpace(stem, space);
  }

  /** A name is its own base unless it is a stem and a number in parentheses. */
  lemma OwnBaseExactly(s: string)
    ensures BaseName(s) != s <==> exists stem, space, number :: IsStemAndNumber(s, stem, space, number)
  {
    if BaseName(s) != s {
      var space, number := NumberedHasStem(s);
    } else if stem, space, number :| IsStemAndNumber(s, stem, space, number) {
      StemIsBase(s, stem, space, number);
    }
  }

  /** Other things in parentheses are no number, and an ideographic space is white space. */
  lemma SomeBases()
    ensures BaseName("Frieren (OVA)") == "Frieren (OVA)" && BaseName("Frieren\U{3000}(2)") == "Frieren"
  {
    assert "Frieren (OVA)" == "Frieren " + ['('] + "OVA)";
    LastOpenBeforeDigits("Frieren ", "OVA)");
    assert "Frieren (OVA)"[LastOpen("Frieren (OVA)") + 1] == 'O';
    assert "Frieren\U{3000}(2)" == "Frieren" + "\U{3000}" + "(" + "2" + ")";
    StemIsBase("Frieren\U{3000}(2)", "Frieren", "\U{3000}", "2");
  }

  /** The number that digits stand for. */
  function ValueOf(digits: string): int {
    if digits == [] then 0 else ValueOf(digits[..|digits| - 1]) * 10 + (digits[|digits| - 1] as int - '0' as int)
  }

  lemma {:induction false} DecimalHasItsValue(n: nat)
    ensures ValueOf(Decimal(n)) == n
  {
    DecimalParts(n);
    if n < 10 {
      assert Decimal(n)[..0] == [];
    } else {
      DecimalHasItsValue(n / 10);
    }
  }

  // ---------- Unique names ----------

  /** The first unused suffixed form from the k-th on; each used one is struck off, so the search ends. */
  ghost function FirstUnused(name: string, used: set<string>, k: nat): string
    decreases |used|
  {
    if Suffixed(name, k) in used then FirstUnused(name, used - {Suffixed(name, k)}, k + 1) else Suffixed(name, k)
  }

  ghost function UniqueName(name: string, used: set<string>): string {
    if name in used then FirstUnused(name, used, 1) else name
  }

  /** The name found is unused, and is the given name or one of its suffixed forms. */
  lemma {:induction false} FirstUnusedIsUnused(name: string, used: set<string>, k: nat) returns (n: nat)
    ensures n >= k && FirstUnused(name, used, k) == Suffixed(name, n) && Suffixed(name, n) !in used
    ensures forall j :: k <= j < n ==> Suffixed(name, j) in used
    decreases |used|
  {
    n := k;
    if Suffixed(name, k) in used {
      n := FirstUnusedIsUnused(name, used - {Suffixed(name, k)}, k + 1);
      SuffixesDiffer(name, k, n);
    }
  }

  lemma SubsetsAreNoLarger(a: set<string>, b: set<string>)
    requires a <= b
    ensures |a| <= |b|
  {
    if a != {} {
      var x :| x in a;
      SubsetsAreNoLarger(a - {x}, b - {x});
    }
  }

  /** The search makes at most as many tries as there are names in use, plus one. */
  method EnsureUniqueGroupName<V>(name: string, existing: Dict<string, V>) returns (unique: string, counter: nat)
    ensures unique == UniqueName(name, KeySet(existing)) && unique !in KeySet(existing)
    ensures counter <= |KeySet(existing)| + 1
    ensures unique == if Has(existing, name) then Suffixed(name, counter) else name
  {
    HasIsMembership(existing, name);
    counter := 0;
    if !Has(existing, name) {
      return name, counter;
    }
    counter := 1;
    ghost var used := KeySet(existing);
    ghost var tried: set<string> := {};
    HasIsMembership(existing, Suffixed(name, counter));
    assert used - tried == used;
    while Has(existing, Suffixed(name, counter))
      invariant tried <= used && |tried| == counter - 1
      invariant forall j :: counter <= j ==> Suffixed(name, j) !in tried
      invariant Has(existing, Suffixed(name, counter)) <==> Suffixed(name, counter) in used
      invariant FirstUnused(name, used, 1) == FirstUnused(name, used - tried, counter)
      decreases |used| - |tried|
    {
      SubsetsAreNoLarger(tried + {Suffixed(name, counter)}, used);
      forall j | counter + 1 <= j ensures Suffixed(name, j) != Suffixed(name, counter) {
        SuffixesDiffer(name, j, counter);
      }
      assert used - tried - {Suffixed(name, counter)} == used - (tried + {Suffixed(name, counter)});
      tried := tried + {Suffixed(name, counter)};
      counter := counter + 1;
      HasIsMembership(existing, Suffixed(name, counter));
    }
    SubsetsAreNoLarger(tried, used);
    unique := Suffixed(name, counter);
  }
}
