/**
 * String helpers shared by every shell iteration: the fields `strsep` yields
 * (empty fields kept), the tokens `strtok` yields (runs of delimiters
 * skipped, section 7.24.5.8 of ISO/IEC 9899:2011), joining with a
 * separator, and `%d` formatting of job ids.
 */
module Text {

  /** The fields `strsep` returns when s is split at every occurrence of d. */
  function Fields(s: string, d: char): (r: seq<string>)
    ensures |r| >= 1
    decreases |s|
  {
    if s == [] then [""]
    else
      var rest := Fields(s[1..], d);
      if s[0] == d then [""] + rest
      else [[s[0]] + rest[0]] + rest[1..]
  }

  /** Keeps the non-empty strings of ws, in order. */
  function NonEmpty(ws: seq<string>): (r: seq<string>)
    ensures |r| <= |ws|
    ensures forall i :: 0 <= i < |r| ==> r[i] != ""
  {
    if ws == [] then []
    else (if ws[0] == "" then [] else [ws[0]]) + NonEmpty(ws[1..])
  }

  /** The tokens successive `strtok(…, d)` calls return: the non-empty fields. */
  function Tokens(s: string, d: char): seq<string>
  {
    NonEmpty(Fields(s, d))
  }

  /** ws joined with sep between consecutive elements. */
  function Join(ws: seq<string>, sep: string): string
  {
    if |ws| == 0 then ""
    else if |ws| == 1 then ws[0]
    else ws[0] + sep + Join(ws[1..], sep)
  }

  /** Each element of ws preceded by sep, all concatenated. */
  function Prefixed(ws: seq<string>, sep: string): string
  {
    if ws == [] then "" else sep + ws[0] + Prefixed(ws[1..], sep)
  }

  /** Joining one more element appends the separator and the element. */
  lemma {:induction false} JoinSnoc(ws: seq<string>, w: string, sep: string)
    ensures Join(ws + [w], sep) == if ws == [] then w else Join(ws, sep) + sep + w
    decreases |ws|
  {
    if |ws| == 1 {
      assert ws + [w] == [ws[0], w];
    } else if |ws| > 1 {
      assert (ws + [w])[1..] == ws[1..] + [w];
      JoinSnoc(ws[1..], w, sep);
    }
  }

  /** The concatenation of all strings of ws. */
  function Concat(ws: seq<string>): string
  {
    if ws == [] then "" else ws[0] + Concat(ws[1..])
  }

  lemma {:induction false} ConcatAppend(a: seq<string>, b: seq<string>)
    ensures Concat(a + b) == Concat(a) + Concat(b)
    decreases |a|
  {
    if a == [] {
      assert a + b == b;
    } else {
      assert (a + b)[1..] == a[1..] + b;
      ConcatAppend(a[1..], b);
    }
  }

  /** Concatenation around one chosen element. */
  lemma {:induction false} ConcatSplit(ws: seq<string>, i: nat)
    requires i < |ws|
    ensures Concat(ws) == Concat(ws[..i]) + ws[i] + Concat(ws[i + 1..])
    decreases i
  {
    if i == 0 {
      assert ws[..0] == [];
      assert ws[1..] == ws[i + 1..];
    } else {
      var t := ws[1..];
      ConcatSplit(t, i - 1);
      assert t[..i - 1] == ws[..i][1..];
      assert t[i - 1] == ws[i];
      assert t[i..] == ws[i + 1..];
      var a := Concat(t[..i - 1]);
      var c := Concat(t[i..]);
      assert Concat(ws[..i]) == ws[0] + a;
      AppendAssoc(ws[0], a + ws[i], c);
      AppendAssoc(ws[0], a, ws[i]);
    }
  }

  lemma AppendAssoc(a: string, b: string, c: string)
    ensures a + (b + c) == a + b + c
  {
  }

  /** Number of occurrences of c in s. */
  function Count(s: string, c: char): nat
  {
    if s == [] then 0 else (if s[0] == c then 1 else 0) + Count(s[1..], c)
  }

  /** Occurrences add up over a concatenation. */
  lemma {:induction false} CountAppend(a: string, b: string, c: char)
    ensures Count(a + b, c) == Count(a, c) + Count(b, c)
    decreases |a|
  {
    if a == [] {
      assert a + b == b;
    } else {
      assert (a + b)[1..] == a[1..] + b;
      CountAppend(a[1..], b, c);
    }
  }

  /** A word free of c holds no occurrence of it. */
  lemma {:induction false} CountOfFree(w: string, c: char)
    requires Free(w, c)
    ensures Count(w, c) == 0
    decreases |w|
  {
    if w != [] {
      CountOfFree(w[1..], c);
    }
  }

  /** A word: no delimiter inside. */
  predicate Free(w: string, d: char)
  {
    forall i :: 0 <= i < |w| ==> w[i] != d
  }

  /** Every field is free of the delimiter. */
  lemma {:induction false} FieldsAreFree(s: string, d: char)
    ensures forall k :: 0 <= k < |Fields(s, d)| ==> Free(Fields(s, d)[k], d)
    decreases |s|
  {
    if s != [] {
      FieldsAreFree(s[1..], d);
    }
  }

  /** Splitting a string free of c on another delimiter gives fields free of c. */
  lemma {:induction false} FieldsKeepFree(s: string, d: char, c: char)
    requires Free(s, c)
    ensures forall k :: 0 <= k < |Fields(s, d)| ==> Free(Fields(s, d)[k], c)
    decreases |s|
  {
    if s != [] {
      FieldsKeepFree(s[1..], d, c);
    }
  }

  /** `strsep` loses nothing: re-joining the fields with the delimiter gives s back. */
  lemma {:induction false} JoinFields(s: string, d: char)
    ensures Join(Fields(s, d), [d]) == s
    decreases |s|
  {
    if s != [] {
      var rest := Fields(s[1..], d);
      JoinFields(s[1..], d);
      if s[0] == d {
        assert Join([""] + rest, [d]) == "" + [d] + Join(rest, [d]);
        assert s == [s[0]] + s[1..];
      } else {
        var r := [[s[0]] + rest[0]] + rest[1..];
        if |rest| == 1 {
          assert Join(r, [d]) == [s[0]] + rest[0];
        } else {
          assert r[1..] == rest[1..];
          assert Join(r, [d]) == [s[0]] + rest[0] + [d] + Join(rest[1..], [d]);
          assert Join(rest, [d]) == rest[0] + [d] + Join(rest[1..], [d]);
        }
        assert s == [s[0]] + s[1..];
      }
    }
  }

  /** `strsep` yields one field more than there are delimiters. */
  lemma {:induction false} FieldsCount(s: string, d: char)
    ensures |Fields(s, d)| == Count(s, d) + 1
    decreases |s|
  {
    if s != [] {
      FieldsCount(s[1..], d);
    }
  }

  /** A delimiter splits the fields of what precedes it from the fields of what follows it. */
  lemma {:induction false} FieldsSplit(a: string, d: char, b: string)
    ensures Fields(a + [d] + b, d) == Fields(a, d) + Fields(b, d)
    decreases |a|
  {
    var s := a + [d] + b;
    if a == [] {
      assert s[1..] == b;
    } else {
      assert s[1..] == a[1..] + [d] + b;
      FieldsSplit(a[1..], d, b);
    }
  }

  /** A word without delimiters is a single field. */
  lemma {:induction false} FieldsOfFree(w: string, d: char)
    requires Free(w, d)
    ensures Fields(w, d) == [w]
    decreases |w|
  {
    if w != [] {
      FieldsOfFree(w[1..], d);
      assert [w[0]] + w[1..] == w;
    }
  }

  /** Splitting a join of delimiter-free words gives the words back. */
  lemma {:induction false} FieldsOfJoin(ws: seq<string>, d: char)
    requires |ws| >= 1
    requires forall k :: 0 <= k < |ws| ==> Free(ws[k], d)
    ensures Fields(Join(ws, [d]), d) == ws
    decreases |ws|
  {
    FieldsOfFree(ws[0], d);
    if |ws| > 1 {
      FieldsOfJoin(ws[1..], d);
      FieldsSplit(ws[0], d, Join(ws[1..], [d]));
      assert ws == [ws[0]] + ws[1..];
    }
  }

  lemma {:induction false} NonEmptyAppend(a: seq<string>, b: seq<string>)
    ensures NonEmpty(a + b) == NonEmpty(a) + NonEmpty(b)
    decreases |a|
  {
    if a == [] {
      assert a + b == b;
    } else {
      assert (a + b)[1..] == a[1..] + b;
      NonEmptyAppend(a[1..], b);
      assert (a + b)[0] == a[0];
    }
  }

  lemma {:induction false} NonEmptyKeepsWords(ws: seq<string>)
    requires forall k :: 0 <= k < |ws| ==> ws[k] != ""
    ensures NonEmpty(ws) == ws
    decreases |ws|
  {
    if ws != [] {
      NonEmptyKeepsWords(ws[1..]);
      assert ws == [ws[0]] + ws[1..];
    }
  }

  /** Every `strtok` token is non-empty and free of the delimiter. */
  lemma TokensAreWords(s: string, d: char)
    ensures forall k :: 0 <= k < |Tokens(s, d)| ==> Tokens(s, d)[k] != "" && Free(Tokens(s, d)[k], d)
  {
    FieldsAreFree(s, d);
    NonEmptySubset(Fields(s, d), d);
  }

  lemma {:induction false} NonEmptySubset(ws: seq<string>, d: char)
    requires forall k :: 0 <= k < |ws| ==> Free(ws[k], d)
    ensures forall k :: 0 <= k < |NonEmpty(ws)| ==> Free(NonEmpty(ws)[k], d)
    decreases |ws|
  {
    if ws != [] {
      NonEmptySubset(ws[1..], d);
    }
  }

  /** `strtok` recovers non-empty delimiter-free words joined by one delimiter. */
  lemma TokensOfJoin(ws: seq<string>, d: char)
    requires |ws| >= 1
    requires forall k :: 0 <= k < |ws| ==> ws[k] != "" && Free(ws[k], d)
    ensures Tokens(Join(ws, [d]), d) == ws
  {
    FieldsOfJoin(ws, d);
    NonEmptyKeepsWords(ws);
  }

  /** Leading and trailing delimiters do not change the `strtok` tokens. */
  lemma TokensIgnorePadding(s: string, d: char)
    ensures Tokens([d] + s, d) == Tokens(s, d)
    ensures Tokens(s + [d], d) == Tokens(s, d)
  {
    FieldsSplit([], d, s);
    assert [] + [d] + s == [d] + s;
    NonEmptyAppend([""], Fields(s, d));
    FieldsSplit(s, d, []);
    assert s + [d] + [] == s + [d];
    NonEmptyAppend(Fields(s, d), [""]);
  }

  /** Decimal digit character of a value below ten. */
  function DigitChar(n: nat): char
    requires n < 10
  {
    "0123456789"[n]
  }

  /** `%d` for a non-negative value: decimal digits, no leading zero. */
  function Digits(n: nat): (r: string)
    ensures |r| >= 1
    ensures forall i :: 0 <= i < |r| ==> '0' <= r[i] <= '9'
  {
    if n < 10 then [DigitChar(n)] else Digits(n / 10) + [DigitChar(n % 10)]
  }

  /** `%d` for any int. */
  function FormatInt(n: int): string
  {
    if n < 0 then "-" + Digits(-n) else Digits(n)
  }

  /** The value of a string of decimal digits. */
  function ParseDigits(s: string): nat
    requires forall i :: 0 <= i < |s| ==> '0' <= s[i] <= '9'
  {
    if s == [] then 0 else 10 * ParseDigits(s[..|s| - 1]) + ((s[|s| - 1] as int) - ('0' as int))
  }

  /** Reading back a formatted non-negative id gives the id. */
  lemma {:induction false} DigitsRoundTrip(n: nat)
    ensures ParseDigits(Digits(n)) == n
  {
    var r := Digits(n);
    if n >= 10 {
      DigitsRoundTrip(n / 10);
      assert r[..|r| - 1] == Digits(n / 10);
    }
  }
}
