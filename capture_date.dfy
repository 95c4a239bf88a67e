/** `get_creation_date` (main.py:13-47): pick the value of the
    highest-priority date tag in a file's metadata, normalise a trailing
    `+hh:mm` offset to `+hhmm`, and hand the string with a matching
    `strptime` format to a date parser.  The exiftool call is its input,
    `None` when extraction failed; the parser is a parameter. */
module CaptureDate {
  import opened Wrappers
  import opened Dates

  /** A metadata dictionary as exiftool returns it: its entries in key
      order, no key twice. */
  predicate DistinctKeys(entries: seq<(string, string)>) {
    forall i, j :: 0 <= i < j < |entries| ==> entries[i].0 != entries[j].0
  }

  type Metadata = entries: seq<(string, string)> | DistinctKeys(entries) witness []

  /** `strptime(text, format)` with its `ValueError` as `None`. */
  type Parser = (string, string) -> Option<Date>

  /** `POSSIBLE_TAGS`, highest priority first. */
  const PossibleTags: seq<string> :=
    ["EXIF:CreateDate", "EXIF:DateTimeOriginal", "QuickTime:CreateDate", "QuickTime:MediaCreateDate"]

  const FormatNoZone: string := "%Y:%m:%d %H:%M:%S"
  const FormatWithZone: string := "%Y:%m:%d %H:%M:%S%z"

  // ------------------------------------------------------------ lookup

  /** `metadata[key]` when `key in metadata`. */
  function Lookup(md: seq<(string, string)>, key: string): (r: Option<string>)
    ensures r.Some? <==> exists i :: 0 <= i < |md| && md[i].0 == key
  {
    if md == [] then None
    else if md[0].0 == key then Some(md[0].1)
    else Lookup(md[1..], key)
  }

  /** The value at the first entry with the key is what Lookup finds. */
  lemma {:induction false} LookupAt(md: seq<(string, string)>, key: string, k: int)
    requires 0 <= k < |md| && md[k].0 == key
    requires forall j :: 0 <= j < k ==> md[j].0 != key
    ensures Lookup(md, key) == Some(md[k].1)
  {
    if k > 0 {
      LookupAt(md[1..], key, k - 1);
    }
  }

  /** In a dictionary, Lookup finds a value exactly when that entry is in it. */
  lemma {:induction false} LookupIsMember(md: Metadata, key: string, v: string)
    ensures Lookup(md, key) == Some(v) <==> (key, v) in md
  {
    if md != [] {
      var tail: Metadata := md[1..];
      LookupIsMember(tail, key, v);
    }
  }

  // --------------------------------------------------------- tag choice

  /** The value of the first tag of `tags` that the metadata holds. */
  function FirstPresent(tags: seq<string>, md: seq<(string, string)>): (r: Option<string>)
    ensures r.Some? <==> exists i :: 0 <= i < |tags| && Lookup(md, tags[i]).Some?
    ensures r.Some? ==> exists i :: 0 <= i < |tags| && Lookup(md, tags[i]) == r
                                   && forall j :: 0 <= j < i ==> Lookup(md, tags[j]).None?
  {
    if tags == [] then None
    else match Lookup(md, tags[0])
      case Some(v) => Some(v)
      case None =>
        var r := FirstPresent(tags[1..], md);
        assert forall i :: 1 <= i < |tags| ==> tags[i] == tags[1..][i - 1];
        r
  }

  /** The date string `get_creation_date` goes on with. */
  function SelectDateString(md: Metadata): Option<string> {
    FirstPresent(PossibleTags, md)
  }

  /** The choice depends on the dictionary's contents, not on the order of
      its keys: the tag loop is the outer loop of the product. */
  lemma KeyOrderIrrelevant(a: Metadata, b: Metadata)
    requires multiset(a) == multiset(b)
    ensures SelectDateString(a) == SelectDateString(b)
  {
    forall key | true
      ensures Lookup(a, key) == Lookup(b, key)
    {
      if Lookup(a, key).Some? {
        var v := Lookup(a, key).value;
        LookupIsMember(a, key, v);
        assert (key, v) in multiset(a);
        LookupIsMember(b, key, v);
      } else if Lookup(b, key).Some? {
        var v := Lookup(b, key).value;
        LookupIsMember(b, key, v);
        assert (key, v) in multiset(b);
        LookupIsMember(a, key, v);
      }
    }
    SameLookupsSameChoice(PossibleTags, a, b);
  }

  lemma {:induction false} SameLookupsSameChoice(tags: seq<string>, a: seq<(string, string)>, b: seq<(string, string)>)
    requires forall key :: Lookup(a, key) == Lookup(b, key)
    ensures FirstPresent(tags, a) == FirstPresent(tags, b)
  {
    if tags != [] {
      SameLookupsSameChoice(tags[1..], a, b);
    }
  }

  // ----------------------------------------------------------- timezone

  predicate HasSign(s: string) {
    '+' in s || '-' in s
  }

  /** `s[:-3] + s[-2:]` when `s[-3] == ':'`: the colon of a `+hh:mm`
      offset is dropped; any other string is left as it is. */
  function NormaliseTimezone(s: string): (r: string)
    requires |s| >= 3
    ensures s[|s| - 3] == ':' ==> |r| == |s| - 1
                                  && r[..|s| - 3] == s[..|s| - 3] && r[|s| - 3..] == s[|s| - 2..]
    ensures s[|s| - 3] != ':' ==> r == s
  {
    if s[|s| - 3] == ':' then s[..|s| - 3] + s[|s| - 2..] else s
  }

  /** Putting the colon back in front of the last two characters undoes
      the normalisation, and the normalisation keeps the sign. */
  lemma NormaliseTimezoneInverse(s: string)
    requires |s| >= 3 && s[|s| - 3] == ':'
    ensures var r := NormaliseTimezone(s);
            |r| >= 2 && r[..|r| - 2] + [':'] + r[|r| - 2..] == s
    ensures HasSign(NormaliseTimezone(s)) == HasSign(s)
  {
    var r := NormaliseTimezone(s);
    assert r[..|r| - 2] == s[..|s| - 3];
    assert r[|r| - 2..] == s[|s| - 2..];
    assert s == s[..|s| - 3] + [':'] + s[|s| - 2..];
    assert forall c :: c != ':' ==> (c in s <==> c in r) by {
      forall c | c != ':' ensures c in s <==> c in r {
        if c in s {
          var i :| 0 <= i < |s| && s[i] == c;
          if i < |s| - 3 { assert r[i] == c; } else { assert r[i - 1] == c; }
        }
        if c in r {
          var i :| 0 <= i < |r| && r[i] == c;
          if i < |s| - 3 { assert s[i] == c; } else { assert s[i + 1] == c; }
        }
      }
    }
  }

  /** The `strptime` format: with `%z` exactly when the string has a sign. */
  function ChooseFormat(s: string): (f: string)
    ensures f == FormatWithZone <==> HasSign(s)
    ensures f == FormatNoZone <==> !HasSign(s)
  {
    if HasSign(s) then FormatWithZone else FormatNoZone
  }

  // -------------------------------------------------------------- whole

  /** What `get_creation_date` returns: `None` for failed extraction, a
      missing tag or a string the parser refuses, the parsed date
      otherwise, and an `IndexError` for a signed string shorter than
      three characters (`s[-3]` on it raises and nothing catches it). */
  function CreationDate(metadata: Option<Metadata>, parse: Parser): Result<Option<Date>, Error> {
    match metadata
    case None => Success(None)
    case Some(md) =>
      match SelectDateString(md)
      case None => Success(None)
      case Some(s) =>
        if !HasSign(s) then Success(parse(s, ChooseFormat(s)))
        else if |s| < 3 then Failure(IndexError)
        else Success(parse(NormaliseTimezone(s), ChooseFormat(s)))
  }

  /** The outcome of CreationDate, case by case: it raises only on a short
      signed date string; a date it returns is the parser's reading of the
      highest-priority tag (its colon-free offset form when signed), with
      the `%z` format exactly for signed strings. */
  lemma CreationDateCases(metadata: Option<Metadata>, parse: Parser)
    ensures CreationDate(metadata, parse).Failure? <==>
              metadata.Some? && SelectDateString(metadata.value).Some?
              && HasSign(SelectDateString(metadata.value).value)
              && |SelectDateString(metadata.value).value| < 3
    ensures metadata.None? ==> CreationDate(metadata, parse) == Success(None)
    ensures (metadata.Some? && forall t :: t in PossibleTags ==> Lookup(metadata.value, t).None?)
            ==> CreationDate(metadata, parse) == Success(None)
    ensures CreationDate(metadata, parse).Success? && CreationDate(metadata, parse).value.Some? ==>
              exists i :: 0 <= i < |PossibleTags|
                && Lookup(metadata.value, PossibleTags[i]).Some?
                && (forall j :: 0 <= j < i ==> Lookup(metadata.value, PossibleTags[j]).None?)
                && (var s := Lookup(metadata.value, PossibleTags[i]).value;
                    && (HasSign(s) ==> |s| >= 3 && parse(NormaliseTimezone(s), FormatWithZone) == CreationDate(metadata, parse).value)
                    && (!HasSign(s) ==> parse(s, FormatNoZone) == CreationDate(metadata, parse).value))
  {
    if metadata.Some? && SelectDateString(metadata.value).None? {
      assert forall i :: 0 <= i < |PossibleTags| ==> Lookup(metadata.value, PossibleTags[i]).None?;
    }
  }

  /** The converse: when the highest-priority tag present holds `s` and
      the parser reads `s` (colon-free when signed) with the chosen format
      as `d`, the file's date is `d`. */
  lemma FirstTagParsed(md: Metadata, parse: Parser, i: int, s: string, d: Date)
    requires 0 <= i < |PossibleTags| && Lookup(md, PossibleTags[i]) == Some(s)
    requires forall j :: 0 <= j < i ==> Lookup(md, PossibleTags[j]).None?
    requires HasSign(s) ==> |s| >= 3
    requires parse(if HasSign(s) then NormaliseTimezone(s) else s, ChooseFormat(s)) == Some(d)
    ensures CreationDate(Some(md), parse) == Success(Some(d))
  {
    var r := SelectDateString(md);
    assert r.Some?;
    var k :| 0 <= k < |PossibleTags| && Lookup(md, PossibleTags[k]) == r
             && forall j :: 0 <= j < k ==> Lookup(md, PossibleTags[j]).None?;
    assert k == i;
  }

  /** `get_creation_date` itself: the loop over `product(POSSIBLE_TAGS,
      metadata.keys())` with its `break`, then the in-place rewrite of the
      string and the choice of format. */
  method GetCreationDate(metadata: Option<Metadata>, parse: Parser) returns (r: Result<Option<Date>, Error>)
    ensures r == CreationDate(metadata, parse)
  {
    if metadata.None? {
      return Success(None);
    }
    var md := metadata.value;
    var createDate: Option<string> := None;
    var t, k := 0, 0;
    while t < |PossibleTags|
      invariant 0 <= t <= |PossibleTags| && 0 <= k <= |md|
      invariant createDate == None
      invariant FirstPresent(PossibleTags, md) == FirstPresent(PossibleTags[t..], md)
      invariant t < |PossibleTags| ==> forall j :: 0 <= j < k ==> md[j].0 != PossibleTags[t]
      decreases |PossibleTags| - t, |md| - k
    {
      if k == |md| {
        assert Lookup(md, PossibleTags[t]).None?;
        assert PossibleTags[t..][1..] == PossibleTags[t + 1..];
        t, k := t + 1, 0;
      } else if PossibleTags[t] == md[k].0 {
        LookupAt(md, PossibleTags[t], k);
        createDate := Some(md[k].1);
        break;
      } else {
        k := k + 1;
      }
    }
    assert createDate == SelectDateString(md);
    if createDate.None? {
      return Success(None);
    }
    var s := createDate.value;
    var format: string;
    if '+' in s || '-' in s {
      if |s| < 3 {
        return Failure(IndexError);
      }
      if s[|s| - 3] == ':' {
        s := s[..|s| - 3] + s[|s| - 2..];
      }
      format := FormatWithZone;
    } else {
      format := FormatNoZone;
    }
    r := Success(parse(s, format));
  }
}
