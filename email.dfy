/** The e-mail address check of the contact form: `isValidEmail` tests its
    argument against the regular expression `^[^\s@]+@[^\s@]+\.[^\s@]+$`.

    `IsValidEmail` states what that expression accepts (a split of the whole
    string into local part, `@`, host, `.`, suffix), and `ValidEmailIff` proves
    it equal to a structural description: no white space, exactly one `@`,
    something before it, and a `.` after it that is neither the first nor the
    last character of the part after the `@`. */
module Email {

  /** The characters matched by `\s` in a JavaScript regular expression:
      ASCII tab, line feed, vertical tab, form feed, carriage return and space,
      no-break space, byte-order mark, and the Unicode space separators and
      line/paragraph separators. */
  predicate IsSpace(c: char) {
    var n := c as int;
    || (9 <= n <= 13) || n == 0x20 || n == 0xA0 || n == 0x1680
    || (0x2000 <= n <= 0x200A) || n == 0x2028 || n == 0x2029
    || n == 0x202F || n == 0x205F || n == 0x3000 || n == 0xFEFF
  }

  /** The class `[^\s@]`. */
  predicate Plain(c: char) {
    !IsSpace(c) && c != '@'
  }

  /** `s` is matched by `[^\s@]*`. */
  predicate AllPlain(s: string) {
    forall k :: 0 <= k < |s| ==> Plain(s[k])
  }

  /** The pattern matches `s` with its `@` at index `at` and the `.` it
      consumes at index `dot`: each of the three `[^\s@]+` runs is non-empty. */
  predicate SplitsAt(s: string, at: int, dot: int) {
    && 0 < at && at + 1 < dot && dot + 1 < |s|
    && s[at] == '@' && s[dot] == '.'
    && AllPlain(s[..at]) && AllPlain(s[at + 1..dot]) && AllPlain(s[dot + 1..])
  }

  /** `isValidEmail`: the anchored pattern matches the whole string for some
      choice of the `@` and of the `.`. */
  predicate IsValidEmail(s: string) {
    exists at, dot | 0 <= at < |s| && 0 <= dot < |s| :: SplitsAt(s, at, dot)
  }

  /** Number of occurrences of `c` in `s`. */
  function Count(s: string, c: char): (n: nat)
    ensures n <= |s|
    ensures n == 0 <==> c !in s
  {
    if s == [] then 0 else (if s[0] == c then 1 else 0) + Count(s[1..], c)
  }

  /** Index of the first occurrence of `c` in `s`, or `|s|` when there is none. */
  function IndexOf(s: string, c: char): (k: nat)
    ensures k <= |s|
    ensures k < |s| ==> s[k] == c
    ensures c !in s[..k]
  {
    if s == [] then 0
    else if s[0] == c then 0
    else
      var k := 1 + IndexOf(s[1..], c);
      assert s[..k] == [s[0]] + s[1..][..k - 1];
      k
  }

  /** The part after the `@` has a `.` that is neither its first nor its
      last character. */
  predicate HasInnerDot(t: string) {
    exists p | 0 < p < |t| - 1 :: t[p] == '.'
  }

  /** The structural description of an accepted address. */
  predicate WellFormedAddress(s: string) {
    && (forall k :: 0 <= k < |s| ==> !IsSpace(s[k]))
    && Count(s, '@') == 1
    && var at := IndexOf(s, '@');
       0 < at < |s| && HasInnerDot(s[at + 1..])
  }

  lemma {:induction false} CountAppend(a: string, b: string, c: char)
    ensures Count(a + b, c) == Count(a, c) + Count(b, c)
  {
    if a == [] {
      assert a + b == b;
    } else {
      assert (a + b)[1..] == a[1..] + b;
      CountAppend(a[1..], b, c);
    }
  }

  /** Splitting `s` around index `k`. */
  lemma CountAround(s: string, k: nat, c: char)
    requires k < |s|
    ensures Count(s, c) == Count(s[..k], c) + (if s[k] == c then 1 else 0) + Count(s[k + 1..], c)
  {
    assert s == s[..k] + [s[k]] + s[k + 1..];
    CountAppend(s[..k] + [s[k]], s[k + 1..], c);
    CountAppend(s[..k], [s[k]], c);
  }

  /** Every match of the pattern has the structural shape. */
  lemma MatchIsWellFormed(s: string, at: int, dot: int)
    requires SplitsAt(s, at, dot)
    ensures WellFormedAddress(s)
  {
    var local, host, suffix := s[..at], s[at + 1..dot], s[dot + 1..];
    forall k | 0 <= k < |s| ensures !IsSpace(s[k]) {
      if k < at {
        assert s[k] == local[k];
      } else if at < k < dot {
        assert s[k] == host[k - at - 1];
      } else if dot < k {
        assert s[k] == suffix[k - dot - 1];
      }
    }
    assert '@' !in local by {
      forall k | 0 <= k < |local| ensures local[k] != '@' { assert Plain(local[k]); }
    }
    var after := s[at + 1..];
    assert '@' !in after by {
      assert after == host + ['.'] + suffix;
      forall k | 0 <= k < |after| ensures after[k] != '@' {
        if k < |host| {
          assert Plain(host[k]);
        } else if k > |host| {
          assert Plain(suffix[k - |host| - 1]);
        }
      }
    }
    CountAround(s, at, '@');
    assert s[..at] == local;
    assert IndexOf(s, '@') == at by {
      var i := IndexOf(s, '@');
      assert i <= at ==> s[..at][..i] == s[..i];
    }
    var t := s[at + 1..];
    assert t[dot - at - 1] == '.';
  }

  /** Every string of the structural shape is matched by the pattern. */
  lemma WellFormedMatches(s: string)
    requires WellFormedAddress(s)
    ensures IsValidEmail(s)
  {
    var at := IndexOf(s, '@');
    var t := s[at + 1..];
    var p :| 0 < p < |t| - 1 && t[p] == '.';
    var dot := at + 1 + p;
    CountAround(s, at, '@');
    assert Count(s[..at], '@') == 0 && Count(t, '@') == 0;
    forall k | 0 <= k < |s| && k != at ensures Plain(s[k]) {
      if k < at {
        assert s[k] == s[..at][k];
      } else {
        assert s[k] == t[k - at - 1];
      }
    }
    assert AllPlain(s[..at]) by {
      forall k | 0 <= k < at ensures Plain(s[..at][k]) { assert s[..at][k] == s[k]; }
    }
    var host, suffix := s[at + 1..dot], s[dot + 1..];
    assert AllPlain(host) by {
      forall k | 0 <= k < |host| ensures Plain(host[k]) {
        assert host[k] == s[at + 1 + k];
      }
    }
    assert AllPlain(suffix) by {
      forall k | 0 <= k < |suffix| ensures Plain(suffix[k]) {
        assert suffix[k] == s[dot + 1 + k];
      }
    }
    assert SplitsAt(s, at, dot);
  }

  /** `isValidEmail(s)` holds exactly for the well-formed addresses. */
  lemma ValidEmailIff(s: string)
    ensures IsValidEmail(s) <==> WellFormedAddress(s)
  {
    if IsValidEmail(s) {
      var at, dot :| 0 <= at < |s| && 0 <= dot < |s| && SplitsAt(s, at, dot);
      MatchIsWellFormed(s, at, dot);
    }
    if WellFormedAddress(s) {
      WellFormedMatches(s);
    }
  }

  /** Two witnesses: an ordinary address passes; one whose only `.` ends the
      string fails. */
  lemma Examples()
    ensures IsValidEmail("a@b.c")
    ensures !IsValidEmail("a@b.")
  {
    assert SplitsAt("a@b.c", 1, 3);
    ValidEmailIff("a@b.");
  }
}
