/** The JSON text that `backup.drop` holds: `JsonConvert.SerializeObject` of a `HashSet<string>`
    (an array of string literals) and `JsonConvert.DeserializeObject<HashSet<string>>` of a text. */
module NameSetJson {
  import opened Wrappers
  import opened NameSets

  /** What deserialising a text as a `HashSet<string>` gives: the `null` literal gives a null
      set, an array of strings gives the set, anything else throws. */
  datatype Decoded = NullLiteral | NameSet(names: seq<string>) | Malformed

  const NullText: string := "null"

  /** The characters of a string literal's body: quote and backslash are escaped. The
      serialiser also escapes control characters, U+0085, U+2028 and U+2029; the model
      keeps only the two escapes that a name set needs to read back. */
  function Escape(s: string): string
  {
    if s == [] then []
    else (if s[0] == '"' || s[0] == '\\' then ['\\', s[0]] else [s[0]]) + Escape(s[1..])
  }

  /** A JSON string literal. */
  function Quote(s: string): string
  {
    "\"" + Escape(s) + "\""
  }

  /** The string literals of `xs`, comma-separated. */
  function Items(xs: seq<string>): (r: string)
    ensures xs == [] <==> r == []
    ensures xs != [] ==> r[0] == '"'
  {
    if xs == [] then ""
    else if |xs| == 1 then Quote(xs[0])
    else Quote(xs[0]) + "," + Items(xs[1..])
  }

  /** `JsonConvert.SerializeObject` of a name set: a JSON array, never the null literal. */
  function Encode(xs: seq<string>): (r: string)
    ensures |r| >= 2 && r[0] == '[' && r[|r| - 1] == ']'
    ensures r != NullText
    ensures xs == [] <==> r == "[]"
  {
    "[" + Items(xs) + "]"
  }

  /** `JsonConvert.SerializeObject` of a string that may be null. */
  function EncodeString(s: Option<string>): (r: string)
    ensures r == NullText <==> s.None?
    ensures s.Some? ==> |r| >= 2 && r[0] == '"' && r[|r| - 1] == '"'
  {
    match s
    case None => NullText
    case Some(t) =>
      assert Quote(t)[0] == '"' != NullText[0];
      Quote(t)
  }

  /** Reads a string literal's body up to its closing quote: the unescaped body and the
      text after the quote. */
  function ParseBody(t: string): (r: Option<(string, string)>)
    ensures r.Some? ==> |r.value.1| < |t|
    decreases |t|
  {
    if t == [] then None
    else if t[0] == '"' then Some(([], t[1..]))
    else if t[0] == '\\' then
      if |t| >= 2 && (t[1] == '"' || t[1] == '\\') then
        match ParseBody(t[2..])
        case None => None
        case Some(p) => Some(([t[1]] + p.0, p.1))
      else None
    else
      match ParseBody(t[1..])
      case None => None
      case Some(p) => Some(([t[0]] + p.0, p.1))
  }

  /** Reads one string literal. */
  function ParseString(t: string): (r: Option<(string, string)>)
    ensures r.Some? ==> |r.value.1| < |t|
  {
    if t != [] && t[0] == '"' then ParseBody(t[1..]) else None
  }

  /** Reads one or more comma-separated string literals and the closing bracket. */
  function ParseItems(t: string): (r: Option<(seq<string>, string)>)
    ensures r.Some? ==> |r.value.1| < |t|
    decreases |t|
  {
    match ParseString(t)
    case None => None
    case Some((x, rest)) =>
      if rest != [] && rest[0] == ',' then
        match ParseItems(rest[1..])
        case None => None
        case Some((ys, rest')) => Some(([x] + ys, rest'))
      else if rest != [] && rest[0] == ']' then Some(([x], rest[1..]))
      else None
  }

  /** `JsonConvert.DeserializeObject<HashSet<string>>`: a repeated name is kept once, at
      its first position. */
  function Decode(text: string): (r: Decoded)
    ensures r.NullLiteral? <==> text == NullText
    ensures r.NameSet? ==> Distinct(r.names) && text != [] && text[0] == '['
    ensures (text == [] || text[0] != '[') && text != NullText ==> r == Malformed
  {
    if text == NullText then NullLiteral
    else if text == "[]" then NameSet([])
    else if text != [] && text[0] == '[' then
      match ParseItems(text[1..])
      case Some((xs, rest)) => if rest == [] then NameSet(AddAll([], xs)) else Malformed
      case None => Malformed
    else Malformed
  }

  lemma {:induction false} ParseBodyEscaped(s: string, rest: string)
    ensures ParseBody(Escape(s) + "\"" + rest) == Some((s, rest))
    decreases |s|
  {
    var t := Escape(s) + "\"" + rest;
    if s == [] {
      assert t == "\"" + rest;
    } else {
      ParseBodyEscaped(s[1..], rest);
      if s[0] == '"' || s[0] == '\\' {
        assert t == ['\\', s[0]] + (Escape(s[1..]) + "\"" + rest);
        assert t[2..] == Escape(s[1..]) + "\"" + rest;
      } else {
        assert t == [s[0]] + (Escape(s[1..]) + "\"" + rest);
        assert t[1..] == Escape(s[1..]) + "\"" + rest;
      }
      assert [s[0]] + s[1..] == s;
    }
  }

  lemma ParseQuoted(s: string, rest: string)
    ensures ParseString(Quote(s) + rest) == Some((s, rest))
  {
    var t := Quote(s) + rest;
    assert t[1..] == Escape(s) + "\"" + rest;
    ParseBodyEscaped(s, rest);
  }

  /** A last string literal and the closing bracket. */
  lemma ParseItemsLast(x: string, rest: string)
    ensures ParseItems(Quote(x) + ("]" + rest)) == Some(([x], rest))
  {
    var after := "]" + rest;
    ParseQuoted(x, after);
    assert after[1..] == rest;
  }

  /** A string literal followed by a comma and further items. */
  lemma ParseItemsNext(x: string, xs: seq<string>, tail: string, rest: string)
    requires ParseItems(tail) == Some((xs, rest))
    ensures ParseItems(Quote(x) + ("," + tail)) == Some(([x] + xs, rest))
  {
    var after := "," + tail;
    ParseQuoted(x, after);
    assert after[1..] == tail;
  }

  lemma {:induction false} ParseItemsEncoded(xs: seq<string>, rest: string)
    requires xs != []
    ensures ParseItems(Items(xs) + "]" + rest) == Some((xs, rest))
    decreases |xs|
  {
    if |xs| == 1 {
      assert Items(xs) + "]" + rest == Quote(xs[0]) + ("]" + rest);
      ParseItemsLast(xs[0], rest);
      assert xs == [xs[0]];
    } else {
      var tail := Items(xs[1..]) + "]" + rest;
      assert Items(xs) + "]" + rest == Quote(xs[0]) + ("," + tail);
      ParseItemsEncoded(xs[1..], rest);
      ParseItemsNext(xs[0], xs[1..], tail, rest);
      assert [xs[0]] + xs[1..] == xs;
    }
  }

  /** Reading back a serialised name set gives the set, each name once, in the order
      serialised; a set without repetitions comes back unchanged. */
  lemma DecodeEncode(xs: seq<string>)
    ensures Decode(Encode(xs)) == NameSet(AddAll([], xs))
    ensures Distinct(xs) ==> Decode(Encode(xs)) == NameSet(xs)
  {
    var text := Encode(xs);
    if xs == [] {
      assert text == "[]";
    } else {
      assert Items(xs)[0] == '"';
      assert text[1] == '"';
      assert text != NullText && text != "[]";
      assert text[1..] == Items(xs) + "]" + "";
      ParseItemsEncoded(xs, "");
    }
    if Distinct(xs) {
      assert [] + xs == xs;
      AddAllFresh([], xs);
    }
  }

  /** Serialising a null string or a string gives a text that is not a name set: the
      null literal reads back as a null set, a string literal makes deserialisation throw. */
  lemma DecodeEncodeString(s: Option<string>)
    ensures s.None? ==> Decode(EncodeString(s)) == NullLiteral
    ensures s.Some? ==> Decode(EncodeString(s)) == Malformed
  {
    if s.Some? {
      var text := EncodeString(s);
      assert text[0] == '"';
      assert text != NullText && text != "[]";
    }
  }
}
