/** The object walker that src/calendar.c and src/currency.c share, on JSON texts
    (sections 2 to 7 of RFC 8259). */
module JsonArray {
  import opened Text

  // ------------------------------------------------------------------ JSON texts

  /** A JSON text as a tree. Strings and keys hold the characters between their quotes;
      white space stands where the grammar allows it. */
  datatype Json =
    | Scalar(text: string)
    | Str(raw: string)
    | Arr(items: Items)
    | Obj(members: Members)

  datatype Items =
    | NoItems(space: string)
    | LastItem(before: string, value: Json, after: string)
    | MoreItems(before: string, value: Json, after: string, rest: Items)

  datatype Members =
    | NoMembers(space: string)
    | LastMember(before: string, key: string, colon: string, value: Json, after: string)
    | MoreMembers(before: string, key: string, colon: string, value: Json, after: string, more: Members)

  predicate IsWhite(s: string) {
    forall k | 0 <= k < |s| :: s[k] in {' ', '\t', '\n', '\r'}
  }

  /** No character the walker looks at. */
  predicate IsBare(s: string) {
    forall k | 0 <= k < |s| :: s[k] !in {'{', '}', '[', ']', '"'}
  }

  /** The inside of a string: quotes only escaped, and no backslash left hanging. */
  predicate IsRaw(s: string)
    decreases s
  {
    s == "" ||
    (if s[0] == '\\' then |s| > 1 && IsRaw(s[2..]) else s[0] != '"' && IsRaw(s[1..]))
  }

  predicate WellFormed(v: Json)
    decreases v
  {
    match v
    case Scalar(text) => IsBare(text)
    case Str(raw) => IsRaw(raw)
    case Arr(items) => ItemsWellFormed(items)
    case Obj(members) => MembersWellFormed(members)
  }

  predicate ItemsWellFormed(items: Items)
    decreases items
  {
    match items
    case NoItems(space) => IsWhite(space)
    case LastItem(before, value, after) => IsWhite(before) && WellFormed(value) && IsWhite(after)
    case MoreItems(before, value, after, rest) =>
      IsWhite(before) && WellFormed(value) && IsWhite(after) && ItemsWellFormed(rest)
  }

  predicate MembersWellFormed(members: Members)
    decreases members
  {
    match members
    case NoMembers(space) => IsWhite(space)
    case LastMember(before, key, colon, value, after) =>
      IsWhite(before) && IsRaw(key) && IsBare(colon) && WellFormed(value) && IsWhite(after)
    case MoreMembers(before, key, colon, value, after, more) =>
      IsWhite(before) && IsRaw(key) && IsBare(colon) && WellFormed(value) && IsWhite(after) && MembersWellFormed(more)
  }

  function Quote(raw: string): string {
    "\"" + (raw + "\"")
  }

  function TextOf(v: Json): (s: string)
    ensures v.Obj? ==> s != "" && s[0] == '{'
    decreases v
  {
    match v
    case Scalar(text) => text
    case Str(raw) => Quote(raw)
    case Arr(items) => "[" + (ItemsText(items) + "]")
    case Obj(members) => "{" + (MembersText(members) + "}")
  }

  function ItemsText(items: Items): string
    decreases items
  {
    match items
    case NoItems(space) => space
    case LastItem(before, value, after) => before + (TextOf(value) + after)
    case MoreItems(before, value, after, rest) => before + (TextOf(value) + (after + ("," + ItemsText(rest))))
  }

  /** The text between a key and its value is the colon with white space around it. */
  function MembersText(members: Members): string
    decreases members
  {
    match members
    case NoMembers(space) => space
    case LastMember(before, key, colon, value, after) =>
      before + (Quote(key) + (colon + (TextOf(value) + after)))
    case MoreMembers(before, key, colon, value, after, more) =>
      before + (Quote(key) + (colon + (TextOf(value) + (after + ("," + MembersText(more))))))
  }

  // ------------------------------------------------------------------- the walker

  /** Which brackets change the depth: next_array_object counts both kinds, extract_block
      only the kind its block opens with. */
  datatype Kinds = Kinds(braces: bool, brackets: bool)

  predicate Opens(k: Kinds, c: char) {
    (k.braces && c == '{') || (k.brackets && c == '[')
  }

  predicate Closes(k: Kinds, c: char) {
    (k.braces && c == '}') || (k.brackets && c == ']')
  }

  /** How much of the text after an opening quote belongs to the string, closing quote
      included. */
  function StringLength(s: string): (n: nat)
    ensures n <= |s|
    decreases s
  {
    if s == "" then 0
    else if s[0] == '"' then 1
    else if s[0] == '\\' && |s| > 1 then 2 + StringLength(s[2..])
    else 1 + StringLength(s[1..])
  }

  /** How much of the text is read until the depth is back at zero. */
  function Extent(k: Kinds, s: string, depth: int): (n: nat)
    ensures n <= |s|
    decreases |s|
  {
    if s == "" then 0
    else
      var c := s[0];
      if Opens(k, c) then 1 + Extent(k, s[1..], depth + 1)
      else if Closes(k, c) then (if depth == 1 then 1 else 1 + Extent(k, s[1..], depth - 1))
      else if c == '"' then
        var n := 1 + StringLength(s[1..]);
        n + Extent(k, s[n..], depth)
      else 1 + Extent(k, s[1..], depth)
  }

  method ReadString(text: string, start: nat) returns (p: nat)
    requires start <= |text|
    ensures start <= p <= |text| && p - start == StringLength(text[start..])
  {
    p := start;
    while p < |text| && text[p] != '"'
      invariant start <= p <= |text|
      invariant StringLength(text[start..]) == p - start + StringLength(text[p..])
    {
      assert text[p..][1..] == text[p + 1..];
      if text[p] == '\\' && p + 1 < |text| {
        assert text[p..][2..] == text[p + 2..];
        p := p + 1;
      }
      p := p + 1;
    }
    if p < |text| {
      p := p + 1;
    }
  }

  /** The depth loop, from the opening bracket at start. */
  method ReadBlock(k: Kinds, text: string, start: nat) returns (p: nat)
    requires start <= |text|
    ensures start <= p <= |text| && p - start == Extent(k, text[start..], 0)
  {
    hide StringLength, Opens, Closes;
    p := start;
    var depth := 0;
    while p < |text|
      invariant start <= p <= |text|
      invariant Extent(k, text[start..], 0) == p - start + Extent(k, text[p..], depth)
    {
      ghost var rest := text[p..];
      assert rest[1..] == text[p + 1..];
      if Opens(k, text[p]) {
        depth := depth + 1;
      } else if Closes(k, text[p]) {
        depth := depth - 1;
        if depth == 0 {
          p := p + 1;
          return;
        }
      } else if text[p] == '"' {
        var q := ReadString(text, p + 1);
        assert rest[q - p..] == text[q..];
        p := q;
        continue;
      }
      p := p + 1;
    }
  }

  predicate StopsSeek(c: char) {
    c == '{' || c == ']'
  }

  function Seek(s: string): (n: nat)
    ensures n <= |s| && (n < |s| ==> StopsSeek(s[n]))
  {
    if s == "" || StopsSeek(s[0]) then 0 else 1 + Seek(s[1..])
  }

  const BOTH: Kinds := Kinds(true, true)

  /** next_array_object: the next object text, if any, and what follows it. */
  function Next(s: string): (r: (Option<string>, string))
    ensures r.0.Some? ==> |r.1| < |s|
  {
    var t := s[Seek(s)..];
    if t == "" || t[0] != '{' then (None, t)
    else
      var n := Extent(BOTH, t, 0);
      (Some(t[..n]), t[n..])
  }

  method NextArrayObject(text: string, cursor: nat) returns (obj: Option<string>, cursor': nat)
    requires cursor <= |text|
    ensures cursor <= cursor' <= |text| && (obj, text[cursor'..]) == Next(text[cursor..])
  {
    hide Extent;
    var p := cursor;
    while p < |text| && !StopsSeek(text[p])
      invariant cursor <= p <= |text|
      invariant Seek(text[cursor..]) == p - cursor + Seek(text[p..])
    {
      assert text[p..][1..] == text[p + 1..];
      p := p + 1;
    }
    assert text[cursor..][p - cursor..] == text[p..];
    if p == |text| || text[p] != '{' {
      return None, p;
    }
    var q := ReadBlock(BOTH, text, p);
    assert text[p..][..q - p] == text[p..q] && text[p..][q - p..] == text[q..];
    return Some(text[p..q]), q;
  }

  /** All objects that repeated calls return, in order. */
  function Objects(s: string): seq<string>
    decreases |s|
  {
    var (obj, rest) := Next(s);
    match obj
    case None => []
    case Some(o) => [o] + Objects(rest)
  }

  /** The loading loop of the holiday and currency tables. */
  method ReadObjects(text: string, start: nat) returns (objs: seq<string>)
    requires start <= |text|
    ensures objs == Objects(text[start..])
  {
    hide Next;
    var obj, cursor := NextArrayObject(text, start);
    objs := [];
    while obj.Some?
      invariant start <= cursor <= |text|
      invariant Objects(text[start..]) ==
                if obj.Some? then objs + ([obj.value] + Objects(text[cursor..])) else objs
      decreases |text| - cursor, obj.Some?
    {
      Assoc(objs, [obj.value], Objects(text[cursor..]));
      objs := objs + [obj.value];
      NextShortens(text[cursor..]);
      obj, cursor := NextArrayObject(text, cursor);
    }
  }

  lemma NextShortens(s: string)
    ensures Next(s).0.Some? ==> |Next(s).1| < |s|
  {}

  // -------------------------------------------------------------- over well-formed text

  lemma {:induction false} OverBare(k: Kinds, s: string, tail: string, depth: int)
    requires IsBare(s)
    ensures Extent(k, s + tail, depth) == |s| + Extent(k, tail, depth)
    decreases s
  {
    if s == "" {
      assert s + tail == tail;
    } else {
      assert (s + tail)[0] == s[0] && (s + tail)[1..] == s[1..] + tail;
      OverBare(k, s[1..], tail, depth);
    }
  }

  lemma {:induction false} RawLength(raw: string, tail: string)
    requires IsRaw(raw)
    ensures StringLength(raw + ("\"" + tail)) == |raw| + 1
    decreases raw
  {
    var t := raw + ("\"" + tail);
    if raw == "" {
      assert t[0] == '"';
    } else if raw[0] == '\\' {
      assert t[0] == '\\' && t[2..] == raw[2..] + ("\"" + tail);
      RawLength(raw[2..], tail);
    } else {
      assert t[0] == raw[0] && t[1..] == raw[1..] + ("\"" + tail);
      RawLength(raw[1..], tail);
    }
  }

  /** Brackets inside a string never move the depth. */
  lemma OverString(k: Kinds, raw: string, tail: string, depth: int)
    requires IsRaw(raw)
    ensures Extent(k, Quote(raw) + tail, depth) == |Quote(raw)| + Extent(k, tail, depth)
  {
    var t := Quote(raw) + tail;
    assert t[0] == '"' && t[1..] == raw + ("\"" + tail);
    RawLength(raw, tail);
    assert t[|raw| + 2..] == tail;
  }

  lemma OverOpening(k: Kinds, c: char, tail: string, depth: int)
    requires c == '{' || c == '['
    ensures Extent(k, [c] + tail, depth) == 1 + Extent(k, tail, if Opens(k, c) then depth + 1 else depth)
  {
    assert ([c] + tail)[0] == c && ([c] + tail)[1..] == tail;
  }

  lemma OverClosing(k: Kinds, c: char, tail: string, depth: int)
    requires c == '}' || c == ']'
    ensures Extent(k, [c] + tail, depth) ==
            if !Closes(k, c) then 1 + Extent(k, tail, depth)
            else if depth == 1 then 1 else 1 + Extent(k, tail, depth - 1)
  {
    assert ([c] + tail)[0] == c && ([c] + tail)[1..] == tail;
  }

  lemma WhiteIsBare(s: string)
    requires IsWhite(s)
    ensures IsBare(s)
  {}

  lemma Lengths(a: string, b: string, tail: string)
    ensures a + b + tail == a + (b + tail) && |a + b| == |a| + |b|
  {}

  /** Inside a block the walker reads over any value and is at the same depth after it. */
  lemma {:induction false} OverValue(k: Kinds, v: Json, tail: string, depth: int)
    requires WellFormed(v) && depth >= 1
    ensures Extent(k, TextOf(v) + tail, depth) == |TextOf(v)| + Extent(k, tail, depth)
    decreases v
  {
    hide Extent, IsRaw, IsBare;
    match v
    case Scalar(text) => OverBare(k, text, tail, depth);
    case Str(raw) => OverString(k, raw, tail, depth);
    case Arr(items) =>
      var inner := ItemsText(items);
      var d := if k.brackets then depth + 1 else depth;
      Lengths("[", inner + "]", tail);
      Lengths(inner, "]", tail);
      OverOpening(k, '[', inner + ("]" + tail), depth);
      OverItems(k, items, "]" + tail, d);
      OverClosing(k, ']', tail, d);
    case Obj(members) =>
      var inner := MembersText(members);
      var d := if k.braces then depth + 1 else depth;
      Lengths("{", inner + "}", tail);
      Lengths(inner, "}", tail);
      OverOpening(k, '{', inner + ("}" + tail), depth);
      OverMembers(k, members, "}" + tail, d);
      OverClosing(k, '}', tail, d);
  }

  lemma OverWhite(k: Kinds, s: string, tail: string, depth: int)
    requires IsWhite(s)
    ensures Extent(k, s + tail, depth) == |s| + Extent(k, tail, depth)
  {
    WhiteIsBare(s);
    OverBare(k, s, tail, depth);
  }

  lemma OverComma(k: Kinds, tail: string, depth: int)
    ensures Extent(k, "," + tail, depth) == 1 + Extent(k, tail, depth)
  {
    OverBare(k, ",", tail, depth);
  }

  lemma {:induction false} OverItems(k: Kinds, items: Items, tail: string, depth: int)
    requires ItemsWellFormed(items) && depth >= 1
    ensures Extent(k, ItemsText(items) + tail, depth) == |ItemsText(items)| + Extent(k, tail, depth)
    decreases items
  {
    hide Extent, IsWhite, TextOf;
    match items
    case NoItems(space) => OverWhite(k, space, tail, depth);
    case LastItem(before, value, after) =>
      var t := TextOf(value);
      Lengths(before, t + after, tail);
      Lengths(t, after, tail);
      OverWhite(k, before, t + (after + tail), depth);
      OverValue(k, value, after + tail, depth);
      OverWhite(k, after, tail, depth);
    case MoreItems(before, value, after, rest) =>
      var t, r := TextOf(value), ItemsText(rest);
      Lengths(before, t + (after + ("," + r)), tail);
      Lengths(t, after + ("," + r), tail);
      Lengths(after, "," + r, tail);
      Lengths(",", r, tail);
      OverWhite(k, before, t + (after + ("," + (r + tail))), depth);
      OverValue(k, value, after + ("," + (r + tail)), depth);
      OverWhite(k, after, "," + (r + tail), depth);
      OverComma(k, r + tail, depth);
      OverItems(k, rest, tail, depth);
  }

  lemma {:induction false} OverMembers(k: Kinds, members: Members, tail: string, depth: int)
    requires MembersWellFormed(members) && depth >= 1
    ensures Extent(k, MembersText(members) + tail, depth) == |MembersText(members)| + Extent(k, tail, depth)
    decreases members
  {
    hide Extent, IsWhite, IsBare, IsRaw, TextOf, Quote;
    match members
    case NoMembers(space) => OverWhite(k, space, tail, depth);
    case LastMember(before, key, colon, value, after) =>
      var t, q := TextOf(value), Quote(key);
      Lengths(before, q + (colon + (t + after)), tail);
      Lengths(q, colon + (t + after), tail);
      Lengths(colon, t + after, tail);
      Lengths(t, after, tail);
      OverWhite(k, before, q + (colon + (t + (after + tail))), depth);
      OverString(k, key, colon + (t + (after + tail)), depth);
      OverBare(k, colon, t + (after + tail), depth);
      OverValue(k, value, after + tail, depth);
      OverWhite(k, after, tail, depth);
    case MoreMembers(before, key, colon, value, after, more) =>
      var t, q, r := TextOf(value), Quote(key), MembersText(more);
      Lengths(before, q + (colon + (t + (after + ("," + r)))), tail);
      Lengths(q, colon + (t + (after + ("," + r))), tail);
      Lengths(colon, t + (after + ("," + r)), tail);
      Lengths(t, after + ("," + r), tail);
      Lengths(after, "," + r, tail);
      Lengths(",", r, tail);
      var rest := "," + (r + tail);
      OverWhite(k, before, q + (colon + (t + (after + rest))), depth);
      OverString(k, key, colon + (t + (after + rest)), depth);
      OverBare(k, colon, t + (after + rest), depth);
      OverValue(k, value, after + rest, depth);
      OverWhite(k, after, rest, depth);
      OverComma(k, r + tail, depth);
      OverMembers(k, more, tail, depth);
  }

  /** A block is read exactly to its own closing bracket, whatever it nests. */
  lemma ExtentIsBlock(k: Kinds, v: Json, tail: string)
    requires WellFormed(v)
    requires (v.Obj? && k.braces) || (v.Arr? && k.brackets)
    ensures Extent(k, TextOf(v) + tail, 0) == |TextOf(v)|
  {
    hide Extent;
    if v.Obj? {
      var inner := MembersText(v.members);
      Lengths("{", inner + "}", tail);
      Lengths(inner, "}", tail);
      OverOpening(k, '{', inner + ("}" + tail), 0);
      OverMembers(k, v.members, "}" + tail, 1);
      OverClosing(k, '}', tail, 1);
    } else {
      var inner := ItemsText(v.items);
      Lengths("[", inner + "]", tail);
      Lengths(inner, "]", tail);
      OverOpening(k, '[', inner + ("]" + tail), 0);
      OverItems(k, v.items, "]" + tail, 1);
      OverClosing(k, ']', tail, 1);
    }
  }

  /** extract_block's scan, from the value's first character. */
  lemma BlockIsValue(v: Json, tail: string)
    requires WellFormed(v) && (v.Obj? || v.Arr?)
    ensures Extent(Kinds(v.Obj?, v.Arr?), TextOf(v) + tail, 0) == |TextOf(v)|
  {
    ExtentIsBlock(Kinds(v.Obj?, v.Arr?), v, tail);
  }

  // ------------------------------------------------------------- an array of objects

  predicate AllObjects(items: Items)
    decreases items
  {
    match items
    case NoItems(_) => true
    case LastItem(_, value, _) => value.Obj?
    case MoreItems(_, value, _, rest) => value.Obj? && AllObjects(rest)
  }

  function Texts(items: Items): seq<string>
    decreases items
  {
    match items
    case NoItems(_) => []
    case LastItem(_, value, _) => [TextOf(value)]
    case MoreItems(_, value, _, rest) => [TextOf(value)] + Texts(rest)
  }

  /** Characters that stand between two objects of an array. */
  predicate IsGap(s: string) {
    forall k | 0 <= k < |s| :: !StopsSeek(s[k])
  }

  lemma {:induction false} SeekOver(gap: string, tail: string)
    requires IsGap(gap)
    ensures Seek(gap + tail) == |gap| + Seek(tail)
  {
    if gap == "" {
      assert gap + tail == tail;
    } else {
      assert (gap + tail)[0] == gap[0] && (gap + tail)[1..] == gap[1..] + tail;
      SeekOver(gap[1..], tail);
    }
  }

  lemma NextIsObject(gap: string, v: Json, tail: string)
    requires IsGap(gap) && v.Obj? && WellFormed(v)
    ensures Next(gap + (TextOf(v) + tail)) == (Some(TextOf(v)), tail)
  {
    var t := TextOf(v) + tail;
    SeekOver(gap, t);
    assert t[0] == '{';
    assert Seek(t) == 0;
    assert (gap + t)[|gap|..] == t;
    ExtentIsBlock(BOTH, v, tail);
    assert t[..|TextOf(v)|] == TextOf(v) && t[|TextOf(v)|..] == tail;
  }

  lemma NextIsNone(gap: string, tail: string)
    requires IsGap(gap)
    ensures Next(gap + ("]" + tail)) == (None, "]" + tail)
  {
    SeekOver(gap, "]" + tail);
    assert ("]" + tail)[0] == ']' && Seek("]" + tail) == 0;
    assert (gap + ("]" + tail))[|gap|..] == "]" + tail;
  }

  /** Repeated calls return exactly the array's object texts, in order, and then nothing;
      gap is what an earlier call left in front. */
  lemma {:induction false} ObjectsOfArray(gap: string, items: Items, tail: string)
    requires ItemsWellFormed(items) && AllObjects(items) && IsGap(gap)
    ensures Objects(gap + (ItemsText(items) + ("]" + tail))) == Texts(items)
    decreases items
  {
    hide Next, TextOf, Seek, Extent;
    var close := "]" + tail;
    match items
    case NoItems(space) =>
      GapJoin(gap, space);
      assert gap + (space + close) == (gap + space) + close;
      NextIsNone(gap + space, tail);
    case LastItem(before, value, after) =>
      var t := TextOf(value);
      GapJoin(gap, before);
      GapJoin("", after);
      Regroup(gap, before, t, after, close);
      NextIsObject(gap + before, value, after + close);
      assert "" + after == after;
      NextIsNone(after, tail);
      assert Objects(after + close) == [];
    case MoreItems(before, value, after, rest) =>
      var t, r := TextOf(value), ItemsText(rest);
      GapJoin(gap, before);
      GapJoin("", after);
      assert "" + after == after;
      var tailText := (after + ",") + (r + close);
      Regroup(gap, before, t, after + ("," + r), close);
      Lengths(after, "," + r, close);
      Lengths(",", r, close);
      Lengths(after, ",", r + close);
      NextIsObject(gap + before, value, tailText);
      ObjectsOfArray(after + ",", rest, tail);
  }

  lemma Regroup(a: string, b: string, c: string, d: string, e: string)
    ensures a + (b + (c + d) + e) == (a + b) + (c + (d + e))
  {}

  lemma GapJoin(gap: string, space: string)
    requires IsGap(gap) && IsWhite(space)
    ensures IsGap(gap + space) && IsGap(gap + space + ",")
  {}

  /** The whole array, from the character after its opening bracket. */
  lemma ArrayRoundTrip(v: Json, tail: string)
    requires v.Arr? && WellFormed(v) && AllObjects(v.items)
    ensures Objects((TextOf(v) + tail)[1..]) == Texts(v.items)
  {
    var inner := ItemsText(v.items);
    assert (TextOf(v) + tail)[1..] == "" + (inner + ("]" + tail));
    ObjectsOfArray("", v.items, tail);
  }
}
