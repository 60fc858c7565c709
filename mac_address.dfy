/** The MAC-address format check shared by routes/clients.js and
    routes/dhcp.js: the anchored regular expression
    ^([0-9A-Fa-f]{2}[:-]){5}([0-9A-Fa-f]{2})$ . */
module MacAddress {
  import opened Js

  predicate IsHexDigit(c: char) {
    ('0' <= c <= '9') || ('a' <= c <= 'f') || ('A' <= c <= 'F')
  }

  predicate IsSeparator(c: char) {
    c == ':' || c == '-'
  }

  /** `([0-9A-Fa-f]{2}[:-]){n}([0-9A-Fa-f]{2})` matching the whole of `s`:
      n groups of two hex digits and a separator, then two hex digits. */
  predicate MatchesGroups(s: string, n: nat)
    decreases n
  {
    if n == 0 then |s| == 2 && IsHexDigit(s[0]) && IsHexDigit(s[1])
    else
      && |s| >= 3 && IsHexDigit(s[0]) && IsHexDigit(s[1]) && IsSeparator(s[2])
      && MatchesGroups(s[3..], n - 1)
  }

  /** The regular expression of clients.js and dhcp.js. */
  predicate MatchesMacPattern(s: string) {
    MatchesGroups(s, 5)
  }

  /** Character `i` of a group-and-separator string: a separator at every
      third position, a hex digit everywhere else. */
  predicate FitsPosition(s: string, i: nat)
    requires i < |s|
  {
    if i % 3 == 2 then IsSeparator(s[i]) else IsHexDigit(s[i])
  }

  /** The positional reading of a MAC address: 17 characters, a separator
      at positions 2, 5, 8, 11 and 14, hex digits elsewhere. */
  predicate WellFormedMac(s: string) {
    |s| == 17 && forall i: nat :: i < |s| ==> FitsPosition(s, i)
  }

  /** The group matcher accepts exactly the strings of length 3n + 2 whose
      every position fits. */
  lemma {:induction false} GroupsArePositional(s: string, n: nat)
    ensures MatchesGroups(s, n) <==> |s| == 3 * n + 2 && forall i: nat :: i < |s| ==> FitsPosition(s, i)
    decreases n
  {
    if n == 0 {
      if |s| == 2 {
        assert forall i: nat :: i < |s| ==> (FitsPosition(s, i) <==> IsHexDigit(s[i]));
      }
    } else if |s| >= 3 {
      var t := s[3..];
      GroupsArePositional(t, n - 1);
      assert forall i: nat :: i < |t| ==> (FitsPosition(t, i) <==> FitsPosition(s, i + 3)) by {
        forall i: nat | i < |t| ensures FitsPosition(t, i) <==> FitsPosition(s, i + 3) {
          assert t[i] == s[i + 3];
          assert (i + 3) % 3 == i % 3;
        }
      }
      if |s| == 3 * n + 2 && forall i: nat :: i < |s| ==> FitsPosition(s, i) {
        assert FitsPosition(s, 0) && FitsPosition(s, 1) && FitsPosition(s, 2);
        assert forall i: nat :: i < |t| ==> FitsPosition(t, i) by {
          forall i: nat | i < |t| ensures FitsPosition(t, i) {
            assert FitsPosition(s, i + 3);
          }
        }
      }
      if MatchesGroups(s, n) {
        forall i: nat | i < |s| ensures FitsPosition(s, i) {
          if i >= 3 {
            assert FitsPosition(t, i - 3);
          }
        }
      }
    }
  }

  /** The regular expression accepts exactly the well-formed MAC addresses. */
  lemma MacPatternIsPositional(s: string)
    ensures MatchesMacPattern(s) <==> WellFormedMac(s)
  {
    GroupsArePositional(s, 5);
  }

  /** Each separator is chosen on its own: changing any separator of an
      accepted address to ':' or '-' keeps it accepted, so mixed separators
      such as "aa:bb-cc:dd-ee:ff" pass. */
  lemma SeparatorsIndependent(s: string, i: nat, c: char)
    requires MatchesMacPattern(s) && i < |s| && i % 3 == 2 && IsSeparator(c)
    ensures MatchesMacPattern(s[i := c])
  {
    MacPatternIsPositional(s);
    var t := s[i := c];
    assert forall j: nat :: j < |t| ==> FitsPosition(t, j) by {
      forall j: nat | j < |t| ensures FitsPosition(t, j) {
        assert FitsPosition(s, j);
      }
    }
    MacPatternIsPositional(t);
  }

  /** Letters of either case are accepted: an accepted address stays
      accepted when any hex digit is replaced by another hex digit. */
  lemma HexDigitsIndependent(s: string, i: nat, c: char)
    requires MatchesMacPattern(s) && i < |s| && i % 3 != 2 && IsHexDigit(c)
    ensures MatchesMacPattern(s[i := c])
  {
    MacPatternIsPositional(s);
    var t := s[i := c];
    assert forall j: nat :: j < |t| ==> FitsPosition(t, j) by {
      forall j: nat | j < |t| ensures FitsPosition(t, j) {
        assert FitsPosition(s, j);
      }
    }
    MacPatternIsPositional(t);
  }

  /** The 400 error of a MAC that fails the check. */
  const InvalidMacFormat: string := "Invalid MAC address format"

  /** `!mac || !regex.test(mac)` negated: the MAC parameter is present, not
      empty, and matches the pattern. */
  predicate AcceptedMac(mac: Option<string>) {
    Truthy(mac) && MatchesMacPattern(mac.value)
  }

  /** The empty string cannot match, so the truthiness test adds nothing to
      the pattern for a present MAC. */
  lemma AcceptedIffPattern(mac: Option<string>)
    ensures AcceptedMac(mac) <==> mac.Some? && WellFormedMac(mac.value)
  {
    if mac.Some? {
      MacPatternIsPositional(mac.value);
    }
  }
}
