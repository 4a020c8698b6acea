/** The address check both sign-in screens share: the pattern
    `^[^\s@]+@[^\s@]+\.[^\s@]+$`, given once as the pattern itself and once
    as a direct scan, and proved to agree. */
module EmailSyntax {
  import opened Text
  import opened Seqs

  /** Characters the pattern's `[^\s@]` admits. */
  predicate Plain(t: string) {
    forall i :: 0 <= i < |t| ==> !IsSpace(t[i]) && t[i] != '@'
  }

  function Compose(local: string, host: string, top: string): string {
    local + "@" + host + "." + top
  }

  /** The pattern: three non-empty runs of plain characters, separated by
      "@" and ".". */
  ghost predicate MatchesPattern(s: string) {
    exists local, host, top :: s == Compose(local, host, top)
      && local != "" && host != "" && top != "" && Plain(local) && Plain(host) && Plain(top)
  }

  /** `validateEmail`: the part before the first "@" is non-empty and plain;
      the rest is plain and has a "." with something on both sides. */
  predicate ValidEmail(s: string) {
    var at := FirstIndex(s, '@');
    at > 0 && Plain(s[..at]) && Plain(s[at + 1..])
    && exists k :: at + 1 < k < |s| - 1 && s[k] == '.'
  }

  /** The scan accepts exactly the strings the pattern does. */
  lemma {:induction false} ValidEmailMatchesPattern(s: string)
    ensures ValidEmail(s) <==> MatchesPattern(s)
  {
    if ValidEmail(s) {
      var at := FirstIndex(s, '@');
      var k :| at + 1 < k < |s| - 1 && s[k] == '.';
      var local, host, top := s[..at], s[at + 1..k], s[k + 1..];
      assert s == Compose(local, host, top);
      assert Plain(host) by {
        forall i | 0 <= i < |host| ensures !IsSpace(host[i]) && host[i] != '@' {
          assert host[i] == s[at + 1..][i];
        }
      }
      assert Plain(top) by {
        forall i | 0 <= i < |top| ensures !IsSpace(top[i]) && top[i] != '@' {
          assert top[i] == s[at + 1..][k - at + i];
        }
      }
    }
    if MatchesPattern(s) {
      var local, host, top :| s == Compose(local, host, top)
        && local != "" && host != "" && top != "" && Plain(local) && Plain(host) && Plain(top);
      PatternShape(s, local, host, top);
    }
  }

  /** Reading a composed address back: the first "@" ends the local part. */
  lemma {:induction false} PatternShape(s: string, local: string, host: string, top: string)
    requires s == Compose(local, host, top)
    requires local != "" && host != "" && top != "" && Plain(local) && Plain(host) && Plain(top)
    ensures ValidEmail(s)
  {
    var n := |local|;
    assert s[n] == '@';
    assert s[..n] == local;
    FirstIndexAt(s, '@', n);
    var rest := s[n + 1..];
    assert rest == host + "." + top;
    assert Plain(rest) by {
      forall i | 0 <= i < |rest| ensures !IsSpace(rest[i]) && rest[i] != '@' {
        if i < |host| {
          assert rest[i] == host[i];
        } else if i > |host| {
          assert rest[i] == top[i - |host| - 1];
        }
      }
    }
    var k := n + 1 + |host|;
    assert s[k] == '.';
  }

  /** Example: a well-formed address passes. */
  lemma {:induction false} AcceptsPlainAddress()
    ensures ValidEmail("a@b.c")
  {
    PatternShape("a@b.c", "a", "b", "c");
  }

  /** Example: an address without a dot after the "@" is refused. */
  lemma {:induction false} RefusesMissingDot()
    ensures !ValidEmail("a@bc")
  {
    FirstIndexAt("a@bc", '@', 1);
  }

  /** Example: an address with a second "@" is refused. */
  lemma {:induction false} RefusesSecondAt()
    ensures !ValidEmail("a@b@c.d")
  {
    var s := "a@b@c.d";
    FirstIndexAt(s, '@', 1);
    assert s[2..][1] == '@';
  }

  /** Example: an address with a space is refused. */
  lemma {:induction false} RefusesSpace()
    ensures !ValidEmail("a b@c.d")
  {
    var s := "a b@c.d";
    FirstIndexAt(s, '@', 3);
    assert s[..3][1] == ' ';
  }
}
