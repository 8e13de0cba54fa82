/** String operations the client relies on: recipient canonicalisation,
    splitting a delimited list field, and substring search. */
module Text {

  /** `str.lower()` on one character, restricted to ASCII letters. */
  function LowerChar(c: char): char
  {
    if 'A' <= c <= 'Z' then (c as int + 32) as char else c
  }

  /** One character of `lower().replace(' ', '_')`. */
  function CanonicalChar(c: char): char
  {
    if c == ' ' then '_' else LowerChar(c)
  }

  /** The recipient as sent and as recorded: `name.lower().replace(' ', '_')`. */
  function Canonical(name: string): (r: string)
    ensures |r| == |name|
    ensures ' ' !in r
    ensures forall i :: 0 <= i < |r| ==> !('A' <= r[i] <= 'Z')
  {
    if name == [] then [] else [CanonicalChar(name[0])] + Canonical(name[1..])
  }

  /** Canonicalising twice is canonicalising once. */
  lemma {:induction false} CanonicalIdempotent(name: string)
    ensures Canonical(Canonical(name)) == Canonical(name)
  {
    if name != [] {
      CanonicalIdempotent(name[1..]);
      var c := Canonical(name);
      assert c[1..] == Canonical(name[1..]);
    }
  }

  /** Two names whose characters agree after canonicalisation denote the same
      recipient, e.g. a display name and its underscore form. */
  lemma {:induction false} CanonicalAgrees(a: string, b: string)
    requires |a| == |b|
    requires forall i :: 0 <= i < |a| ==> CanonicalChar(a[i]) == CanonicalChar(b[i])
    ensures Canonical(a) == Canonical(b)
  {
    if a != [] {
      assert CanonicalChar(a[0]) == CanonicalChar(b[0]);
      CanonicalAgrees(a[1..], b[1..]);
    }
  }

  /** "New Provi" and "new_provi" reach the same sent-ledger entry. */
  lemma DisplayAndUnderscoreNamesAgree()
    ensures Canonical("New Provi") == Canonical("new_provi") == "new_provi"
  {
    var display, ledger := "New Provi", "new_provi";
    assert CanonicalChar(display[0]) == ledger[0];
    assert CanonicalChar(display[3]) == ledger[3];
    assert CanonicalChar(display[4]) == ledger[4];
    forall i | 0 <= i < |display| ensures CanonicalChar(display[i]) == CanonicalChar(ledger[i]) == ledger[i] {
    }
    CanonicalAgrees(display, ledger);
    CanonicalFixed(ledger);
  }

  /** A name that is already in canonical form is left alone. */
  lemma {:induction false} CanonicalFixed(name: string)
    requires forall i :: 0 <= i < |name| ==> CanonicalChar(name[i]) == name[i]
    ensures Canonical(name) == name
  {
    if name != [] {
      CanonicalFixed(name[1..]);
    }
  }

  /** `s.split(sep)` for a one-character separator: never empty, and an empty
      string splits into one empty part. */
  function Split(s: string, sep: char): (parts: seq<string>)
    ensures |parts| >= 1
    ensures forall i :: 0 <= i < |parts| ==> sep !in parts[i]
    decreases |s|
  {
    if s == [] then [[]]
    else
      var rest := Split(s[1..], sep);
      if s[0] == sep then [[]] + rest
      else [[s[0]] + rest[0]] + rest[1..]
  }

  /** `sep.join(parts)`. */
  function Join(parts: seq<string>, sep: char): string
    decreases |parts|
  {
    if parts == [] then []
    else if |parts| == 1 then parts[0]
    else parts[0] + [sep] + Join(parts[1..], sep)
  }

  /** Joining the parts of a split gives back the original field. */
  lemma {:induction false} JoinSplit(s: string, sep: char)
    ensures Join(Split(s, sep), sep) == s
    decreases |s|
  {
    if s != [] {
      JoinSplit(s[1..], sep);
      var rest := Split(s[1..], sep);
      if s[0] == sep {
        assert Split(s, sep) == [[]] + rest;
        assert ([[]] + rest)[1..] == rest;
      } else {
        var parts := Split(s, sep);
        assert parts == [[s[0]] + rest[0]] + rest[1..];
        if |rest| == 1 {
          assert Join(parts, sep) == [s[0]] + rest[0];
        } else {
          assert parts[1..] == rest[1..];
          assert Join(rest, sep) == rest[0] + [sep] + Join(rest[1..], sep);
          assert Join(parts, sep) == ([s[0]] + rest[0]) + [sep] + Join(rest[1..], sep);
        }
      }
    }
  }

  /** Splitting a part free of the separator followed by more text extends the
      first part of the tail's split. */
  lemma {:induction false} SplitPrefix(p: string, tail: string, sep: char)
    requires sep !in p
    ensures Split(p + tail, sep) == [p + Split(tail, sep)[0]] + Split(tail, sep)[1..]
    decreases |p|
  {
    if p != [] {
      SplitPrefix(p[1..], tail, sep);
      assert (p + tail)[1..] == p[1..] + tail;
      assert (p + tail)[0] == p[0];
      assert [p[0]] + (p[1..] + Split(tail, sep)[0]) == p + Split(tail, sep)[0];
    } else {
      var rest := Split(tail, sep);
      assert p + tail == tail;
      assert p + rest[0] == rest[0];
      assert [rest[0]] + rest[1..] == rest;
    }
  }

  /** Splitting a join of separator-free parts gives back the parts. */
  lemma {:induction false} SplitJoin(parts: seq<string>, sep: char)
    requires |parts| >= 1
    requires forall i :: 0 <= i < |parts| ==> sep !in parts[i]
    ensures Split(Join(parts, sep), sep) == parts
    decreases |parts|
  {
    if |parts| == 1 {
      SplitPrefix(parts[0], [], sep);
      assert parts[0] + [] == parts[0];
    } else {
      var tail := [sep] + Join(parts[1..], sep);
      assert Join(parts, sep) == parts[0] + tail;
      SplitJoin(parts[1..], sep);
      assert tail[1..] == Join(parts[1..], sep);
      assert Split(tail, sep) == [[]] + parts[1..];
      SplitPrefix(parts[0], tail, sep);
      assert parts[0] + [] == parts[0];
      assert parts == [parts[0]] + parts[1..];
    }
  }

  /** `parts` is the field `s` cut at every `sep`: at least one part, none
      holding the separator, and joined with it they give back `s`. */
  ghost predicate SplitOf(parts: seq<string>, s: string, sep: char)
  {
    |parts| >= 1 && (forall i :: 0 <= i < |parts| ==> sep !in parts[i]) && Join(parts, sep) == s
  }

  /** Only the split of a field is a cutting of it at every separator. */
  lemma SplitOfUnique(parts: seq<string>, s: string, sep: char)
    requires SplitOf(parts, s, sep)
    ensures parts == Split(s, sep)
  {
    SplitJoin(parts, sep);
  }

  /** `pat` occurs in `text` starting at index `i`. */
  ghost predicate OccursAt(text: string, pat: string, i: int)
  {
    0 <= i && i + |pat| <= |text| && text[i..i + |pat|] == pat
  }

  /** `pat in text` for strings. */
  function Contains(text: string, pat: string): (r: bool)
    ensures r <==> exists i :: OccursAt(text, pat, i)
    decreases |text|
  {
    if |text| < |pat| then false
    else if text[..|pat|] == pat then
      assert OccursAt(text, pat, 0);
      true
    else
      var r := Contains(text[1..], pat);
      assert r ==> exists i :: OccursAt(text, pat, i) by {
        if r {
          var i :| OccursAt(text[1..], pat, i);
          assert text[1..][i..i + |pat|] == text[i + 1..i + 1 + |pat|];
          assert OccursAt(text, pat, i + 1);
        }
      }
      assert (exists i :: OccursAt(text, pat, i)) ==> r by {
        if exists i :: OccursAt(text, pat, i) {
          var i :| OccursAt(text, pat, i);
          assert i != 0;
          assert text[1..][i - 1..i - 1 + |pat|] == text[i..i + |pat|];
          assert OccursAt(text[1..], pat, i - 1);
        }
      }
      r
  }
}
