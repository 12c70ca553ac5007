/** What each operator of an alternative means, law by law. */
module RuneOperators {
  import opened RuneAlternative
  import opened Wrappers

  /** The characters that end a field: the printable ones of ASCII but letters, digits, the space and "_". */
  lemma PunctuationExactly(c: char)
    ensures IsPunctuation(c)
            <==> ' ' < c <= '~' && c != '_' && !('a' <= c <= 'z') && !('A' <= c <= 'Z') && !('0' <= c <= '9')
  {
  }

  /** There are eleven operators. */
  lemma OperatorsExactly(c: char)
    ensures IsCond(c) <==> c in "!=/^$~<>}{#"
  {
    var ops := "!=/^$~<>}{#";
    assert ops[0] == '!' && ops[1] == '=' && ops[2] == '/' && ops[3] == '^' && ops[4] == '$' && ops[5] == '~';
    assert ops[6] == '<' && ops[7] == '>' && ops[8] == '}' && ops[9] == '{' && ops[10] == '#';
  }

  /** A missing field is tested by no operator but '!', which holds; a comment always holds. */
  lemma MissingField(a: Alternative, values: Values, parseInt: ParseInt)
    requires Valid(a) && a.field !in values
    ensures Test(a, values, parseInt) == None <==> a.cond == '!' || a.cond == '#'
    ensures a.cond != '!' && a.cond != '#' ==> Test(a, values, parseInt) == Some(a.field + ": " + "is missing")
  {
  }

  lemma CommentAlwaysHolds(field: string, value: string, values: Values, parseInt: ParseInt)
    ensures Test(Alternative(field, '#', value), values, parseInt) == None
  {
  }

  lemma PresentFails(field: string, value: string, values: Values, parseInt: ParseInt)
    requires field in values
    ensures Test(Alternative(field, '!', value), values, parseInt) != None
  {
  }

  /** Does the alternative hold of a field that is there? */
  predicate Allows(field: string, cond: char, value: string, v: string, parseInt: ParseInt) {
    Test(Alternative(field, cond, value), map[field := v], parseInt) == None
  }

  /** Only the alternative's own field decides. */
  lemma OnlyTheField(a: Alternative, values: Values, parseInt: ParseInt)
    requires a.field in values
    ensures Test(a, values, parseInt) == None <==> Allows(a.field, a.cond, a.value, values[a.field], parseInt)
  {
  }

  lemma Equality(field: string, value: string, v: string, parseInt: ParseInt)
    ensures Allows(field, '=', value, v, parseInt) <==> v == value
    ensures Allows(field, '/', value, v, parseInt) <==> v != value
  {
  }

  lemma Beginning(field: string, value: string, v: string, parseInt: ParseInt)
    ensures Allows(field, '^', value, v, parseInt) <==> exists x: string :: v == value + x
  {
    if value <= v {
      assert v == value + v[|value|..];
    }
  }

  lemma Ending(field: string, value: string, v: string, parseInt: ParseInt)
    ensures Allows(field, '$', value, v, parseInt) <==> exists x: string :: v == x + value
  {
    if |value| <= |v| && v[|v| - |value|..] == value {
      assert v == v[..|v| - |value|] + value;
    }
    if x: string :| v == x + value {
      assert v[|v| - |value|..] == value;
    }
  }

  /** The part is somewhere in the string. */
  ghost predicate Contains(s: string, part: string) {
    exists x: string, y: string :: s == x + part + y
  }

  lemma {:induction false} IncludesExactly(s: string, part: string)
    ensures Includes(s, part) <==> Contains(s, part)
  {
    if part <= s {
      assert s == "" + part + s[|part|..];
    }
    if s != "" {
      IncludesExactly(s[1..], part);
      if Contains(s[1..], part) {
        var x: string, y: string :| s[1..] == x + part + y;
        assert s == [s[0]] + x + part + y;
      }
    }
    if Contains(s, part) {
      ContainedFurther(s, part);
    }
  }

  lemma ContainedFurther(s: string, part: string)
    requires Contains(s, part)
    ensures part <= s || (s != "" && Contains(s[1..], part))
  {
    var x: string, y: string :| s == x + part + y;
    if x == "" {
      assert s == part + y;
    } else {
      assert s[1..] == x[1..] + part + y;
    }
  }

  lemma Containing(field: string, value: string, v: string, parseInt: ParseInt)
    ensures Allows(field, '~', value, v, parseInt) <==> Contains(v, value)
  {
    IncludesExactly(v, value);
  }

  /** The numeric operators hold only between two integers. */
  lemma Numbers(field: string, value: string, v: string, parseInt: ParseInt)
    ensures Allows(field, '<', value, v, parseInt)
            <==> parseInt(v).Some? && parseInt(value).Some? && parseInt(v).value < parseInt(value).value
    ensures Allows(field, '>', value, v, parseInt)
            <==> parseInt(v).Some? && parseInt(value).Some? && parseInt(v).value > parseInt(value).value
  {
  }

  /** Strings in the order of their first difference, a beginning before the whole. */
  ghost predicate Before(a: string, b: string) {
    a < b || exists k :: 0 <= k < |a| && k < |b| && a[..k] == b[..k] && a[k] < b[k]
  }

  lemma {:induction false} StringLessExactly(a: string, b: string)
    ensures StringLess(a, b) <==> Before(a, b)
  {
    if a != "" && b != "" {
      StringLessExactly(a[1..], b[1..]);
      assert a == [a[0]] + a[1..] && b == [b[0]] + b[1..];
      if a[0] < b[0] {
        assert a[..0] == b[..0];
      }
      if a[0] == b[0] {
        BeforeFurther(a, b);
      }
      if k :| 0 <= k < |a| && k < |b| && a[..k] == b[..k] && a[k] < b[k] {
        assert k > 0 ==> a[..k][0] == b[..k][0];
      }
    }
  }

  lemma BeforeFurther(a: string, b: string)
    requires a != "" && b != "" && a[0] == b[0]
    ensures Before(a, b) <==> Before(a[1..], b[1..])
  {
    if k :| 0 <= k < |a| && k < |b| && a[..k] == b[..k] && a[k] < b[k] {
      assert a[1..][..k - 1] == a[..k][1..] && b[1..][..k - 1] == b[..k][1..];
    }
    if k :| 0 <= k < |a[1..]| && k < |b[1..]| && a[1..][..k] == b[1..][..k] && a[1..][k] < b[1..][k] {
      assert a[..k + 1] == [a[0]] + a[1..][..k] && b[..k + 1] == [b[0]] + b[1..][..k];
    }
    assert a == [a[0]] + a[1..] && b == [b[0]] + b[1..];
  }

  lemma {:induction false} Trichotomy(a: string, b: string)
    ensures (StringLess(a, b) && a != b && !StringLess(b, a))
            || (!StringLess(a, b) && a == b && !StringLess(b, a))
            || (!StringLess(a, b) && a != b && StringLess(b, a))
  {
    if a != "" && b != "" {
      Trichotomy(a[1..], b[1..]);
      assert a == [a[0]] + a[1..] && b == [b[0]] + b[1..];
    }
  }

  lemma {:induction false} Transitivity(a: string, b: string, c: string)
    requires StringLess(a, b) && StringLess(b, c)
    ensures StringLess(a, c)
  {
    if a != "" && a[0] == b[0] && b[0] == c[0] {
      Transitivity(a[1..], b[1..], c[1..]);
    }
  }

  /** '{' and '}' compare by the order of strings, and of '{', '=' and '}' exactly one holds. */
  lemma Ordering(field: string, value: string, v: string, parseInt: ParseInt)
    ensures Allows(field, '{', value, v, parseInt) <==> Before(v, value)
    ensures Allows(field, '}', value, v, parseInt) <==> Before(value, v)
    ensures (Allows(field, '{', value, v, parseInt) || Allows(field, '=', value, v, parseInt)
             || Allows(field, '}', value, v, parseInt))
    ensures !(Allows(field, '{', value, v, parseInt) && Allows(field, '=', value, v, parseInt))
    ensures !(Allows(field, '{', value, v, parseInt) && Allows(field, '}', value, v, parseInt))
    ensures !(Allows(field, '=', value, v, parseInt) && Allows(field, '}', value, v, parseInt))
  {
    StringLessExactly(v, value);
    StringLessExactly(value, v);
    Trichotomy(v, value);
  }

  /** Whatever fails says so of its own field. */
  lemma ReasonNamesField(a: Alternative, values: Values, parseInt: ParseInt)
    requires Test(a, values, parseInt) != None
    ensures a.field + ": " <= Test(a, values, parseInt).value
  {
  }
}
