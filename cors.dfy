/**
 * `parseOrigins`: the comma-separated list of allowed CORS origins, with
 * `"*"` meaning every origin. Pieces are trimmed and blank pieces dropped.
 */
module Cors {
  import opened JsText

  /** `.map((o) => o.trim())`. */
  function TrimAll(parts: seq<string>): (r: seq<string>)
    ensures |r| == |parts|
    ensures forall i :: 0 <= i < |r| ==> IsTrimmed(r[i])
  {
    MapSeq(Trim, parts)
  }

  /** `Array.prototype.map` with a total callback. */
  function MapSeq<A, B>(f: A -> B, s: seq<A>): (r: seq<B>)
    ensures |r| == |s| && forall i :: 0 <= i < |s| ==> r[i] == f(s[i])
  {
    seq(|s|, i requires 0 <= i < |s| => f(s[i]))
  }

  lemma MapConcat<A, B>(f: A -> B, a: seq<A>, b: seq<A>)
    ensures MapSeq(f, a + b) == MapSeq(f, a) + MapSeq(f, b)
  {
    var whole, parts := MapSeq(f, a + b), MapSeq(f, a) + MapSeq(f, b);
    forall i | 0 <= i < |whole|
      ensures whole[i] == parts[i]
    {
      if i < |a| {
        assert (a + b)[i] == a[i];
      } else {
        assert (a + b)[i] == b[i - |a|];
      }
    }
  }

  /** `.filter(Boolean)` on strings: keeps the non-empty ones, in order. */
  function DropEmpty(parts: seq<string>): (r: seq<string>)
    ensures |r| <= |parts|
    ensures forall x :: x in r <==> x in parts && x != ""
  {
    if parts == [] then []
    else if parts[0] == "" then DropEmpty(parts[1..])
    else [parts[0]] + DropEmpty(parts[1..])
  }

  /**
   * The allowed origins: `["*"]` for the wildcard, otherwise every non-blank
   * comma-separated entry, trimmed. No entry is empty, padded or holds a comma,
   * and there are no more entries than pieces between commas.
   */
  function ParseOrigins(origins: string): (r: seq<string>)
    ensures origins == "*" ==> r == ["*"]
    ensures forall x :: x in r ==> x != "" && IsTrimmed(x) && ',' !in x
    ensures |r| <= Occurrences(origins, ',') + 1
  {
    if origins == "*" then
      WildcardIsAnOrigin();
      ["*"]
    else EntriesOf(origins)
  }

  /** The non-wildcard reading: trim every comma-separated piece, drop the blank ones. */
  function EntriesOf(origins: string): (r: seq<string>)
    ensures forall x :: x in r ==> x != "" && IsTrimmed(x) && ',' !in x
    ensures |r| <= Occurrences(origins, ',') + 1
  {
    var pieces := Split(origins, ',');
    SplitCount(origins, ',');
    SplitPiecesFree(origins, ',');
    TrimmedPieces(pieces, ',');
    DropEmpty(TrimAll(pieces))
  }

  /**
   * The wildcard test only short-cuts: read as a list, `"*"` is the single
   * entry `"*"` as well, so every setting's origins are its entries.
   */
  lemma ParseIsEntries(origins: string)
    ensures ParseOrigins(origins) == EntriesOf(origins)
  {
    if origins == "*" {
      WildcardIsAnOrigin();
      SplitFree("*", ',');
      assert "*" == [] + "*" + [];
      TrimPadded([], "*", []);
      assert TrimAll(["*"]) == ["*"];
    }
  }

  lemma WildcardIsAnOrigin()
    ensures IsTrimmed("*") && ',' !in "*"
  {
    assert "*"[0] == '*';
  }

  lemma TrimmedPieces(parts: seq<string>, c: char)
    requires forall i :: 0 <= i < |parts| ==> c !in parts[i]
    ensures forall x :: x in DropEmpty(TrimAll(parts)) ==> x != "" && IsTrimmed(x) && c !in x
  {
    forall i | 0 <= i < |parts|
      ensures c !in Trim(parts[i])
    {
      TrimKeepsOut(parts[i], c);
    }
  }

  /**
   * An origin is allowed exactly when it is not empty and is the trim of one
   * of the comma-separated pieces (for `"*"` the one piece is `"*"` itself).
   */
  lemma AllowedIffTrimmedPiece(origins: string, pieces: seq<string>, x: string)
    requires pieces == Split(origins, ',')
    ensures x in ParseOrigins(origins) <==> x != "" && exists i :: 0 <= i < |pieces| && Trim(pieces[i]) == x
  {
    ParseIsEntries(origins);
    TrimAllMembers(pieces, x);
  }

  /** The trimmed pieces are the trims of the pieces, one by one. */
  lemma TrimAllMembers(parts: seq<string>, x: string)
    ensures x in TrimAll(parts) <==> exists i :: 0 <= i < |parts| && Trim(parts[i]) == x
  {
    if exists i :: 0 <= i < |parts| && Trim(parts[i]) == x {
      var i :| 0 <= i < |parts| && Trim(parts[i]) == x;
      assert TrimAll(parts)[i] == x;
    }
  }

  /** An empty setting allows no origin at all. */
  lemma EmptySettingAllowsNothing()
    ensures ParseOrigins("") == []
  {
    assert Split("", ',') == [""];
    assert Trim("") == "";
    assert TrimAll([""]) == [""];
  }

  lemma {:induction false} DropEmptyConcat(a: seq<string>, b: seq<string>)
    ensures DropEmpty(a + b) == DropEmpty(a) + DropEmpty(b)
  {
    if a == [] {
      assert a + b == b;
    } else {
      assert (a + b)[0] == a[0];
      assert (a + b)[1..] == a[1..] + b;
      DropEmptyConcat(a[1..], b);
    }
  }

  lemma {:induction false} DropEmptyKeepsNonEmpty(parts: seq<string>)
    requires forall i :: 0 <= i < |parts| ==> parts[i] != ""
    ensures DropEmpty(parts) == parts
  {
    if parts != [] {
      DropEmptyKeepsNonEmpty(parts[1..]);
      assert [parts[0]] + parts[1..] == parts;
    }
  }

  lemma TrimAllConcat(a: seq<string>, b: seq<string>)
    ensures TrimAll(a + b) == TrimAll(a) + TrimAll(b)
  {
    MapConcat(Trim, a, b);
  }

  /**
   * Joining any two settings with a comma allows the first's origins
   * followed by the second's: entries are kept in order and independently.
   */
  lemma OriginsOfConcatenation(o1: string, o2: string)
    ensures ParseOrigins(o1 + "," + o2) == ParseOrigins(o1) + ParseOrigins(o2)
  {
    var joined := o1 + [','] + o2;
    assert joined == o1 + "," + o2;
    assert joined[|o1|] == ',';
    assert joined != "*";
    ParseIsEntries(o1);
    ParseIsEntries(o2);
    SplitConcat(o1, o2, ',');
    TrimAllConcat(Split(o1, ','), Split(o2, ','));
    DropEmptyConcat(TrimAll(Split(o1, ',')), TrimAll(Split(o2, ',')));
  }

  /**
   * A single entry padded with white space allows that entry, or nothing when
   * the entry is blank.
   */
  lemma PaddedEntry(before: string, entry: string, after: string)
    requires AllTrimmable(before) && AllTrimmable(after)
    requires IsTrimmed(entry) && ',' !in entry
    ensures ParseOrigins(before + entry + after) == (if entry == "" then [] else [entry])
  {
    var s := before + entry + after;
    assert ',' !in before && ',' !in after;
    assert ',' !in s;
    TrimPadded(before, entry, after);
    SingleEntry(s);
    ParseIsEntries(s);
  }

  lemma SingleEntry(s: string)
    requires ',' !in s
    ensures EntriesOf(s) == (if Trim(s) == "" then [] else [Trim(s)])
  {
    SplitFree(s, ',');
    assert TrimAll([s]) == [Trim(s)];
  }

  /**
   * Writing a list of origins (non-empty, trimmed, comma-free) as a
   * comma-separated setting and parsing it gives the list back.
   */
  lemma FormatRoundTrip(xs: seq<string>)
    requires forall i :: 0 <= i < |xs| ==> xs[i] != "" && IsTrimmed(xs[i]) && ',' !in xs[i]
    ensures ParseOrigins(Join(xs, ',')) == xs
  {
    if xs == [] {
      EmptySettingAllowsNothing();
    } else {
      var s := Join(xs, ',');
      SplitJoin(xs, ',');
      if s == "*" {
        SplitFree("*", ',');
        assert xs == ["*"];
      } else {
        TrimAllOfTrimmed(xs);
        DropEmptyKeepsNonEmpty(xs);
      }
    }
  }

  lemma TrimAllOfTrimmed(xs: seq<string>)
    requires forall i :: 0 <= i < |xs| ==> IsTrimmed(xs[i])
    ensures TrimAll(xs) == xs
  {
    forall i | 0 <= i < |xs|
      ensures TrimAll(xs)[i] == xs[i]
    {
      assert [] + xs[i] + [] == xs[i];
      TrimPadded([], xs[i], []);
    }
  }

  /** Parsing is stable: re-joining the allowed origins and parsing again changes nothing. */
  lemma ParseIsStable(origins: string)
    ensures ParseOrigins(Join(ParseOrigins(origins), ',')) == ParseOrigins(origins)
  {
    var r := ParseOrigins(origins);
    assert forall i :: 0 <= i < |r| ==> r[i] in r;
    FormatRoundTrip(r);
  }
}
