/** Conversion options as a query string (core/src/subscription.rs): a printer that percent-codes
    values (section 2.1 of RFC 3986) and a parser that trims, splits and decodes. Text is a
    sequence of bytes, one `char` each. */
module Query {
  import opened Common
  import opened Spaces = Text
  import Addresses

  datatype TextKey = Url | Group | Exclude | Include | Rename | Filename | FilterScript | SortScript

  datatype FlagKey =
    | Emoji | AddEmoji | RemoveEmoji | AppendType | Sort | Tfo | Udp | Scv | Tls13 | Insert | NewName | AppendInfo
    | Fdn | Expand | Classic | List

  datatype Key = Text(text: TextKey) | Flag(flag: FlagKey)

  /** The fields that the printer leaves out. */
  datatype Unprinted = Unprinted(
    udpFilter: Option<bool>, maxLink: Option<nat>, sortAlgorithm: Option<string>, tolerance: Option<nat>,
    country: Option<seq<string>>)

  const NOTHING: Unprinted := Unprinted(None, None, None, None, None)

  /** An optional field is set when its key is in the map. */
  datatype ConvertOptions = ConvertOptions(
    target: string, texts: map<TextKey, string>, flags: map<FlagKey, bool>, unprinted: Unprinted)

  const DEFAULT: ConvertOptions := ConvertOptions("", map[], map[], NOTHING)

  /** The order in which the printer writes the optional fields. */
  const ORDER: seq<Key> := [
    Text(Url), Text(Group), Text(Exclude), Text(Include), Text(Rename),
    Flag(Emoji), Flag(AddEmoji), Flag(RemoveEmoji), Flag(AppendType), Flag(Sort), Flag(Tfo), Flag(Udp), Flag(Scv),
    Flag(Tls13), Flag(Insert), Flag(NewName), Flag(AppendInfo), Flag(Fdn), Flag(Expand), Flag(Classic), Flag(List),
    Text(Filename), Text(FilterScript), Text(SortScript)]

  function Name(k: Key): string {
    match k
    case Text(Url) => "url"
    case Text(Group) => "group"
    case Text(Exclude) => "exclude"
    case Text(Include) => "include"
    case Text(Rename) => "rename"
    case Text(Filename) => "filename"
    case Text(FilterScript) => "filter_script"
    case Text(SortScript) => "sort_script"
    case Flag(Emoji) => "emoji"
    case Flag(AddEmoji) => "add_emoji"
    case Flag(RemoveEmoji) => "remove_emoji"
    case Flag(AppendType) => "append_type"
    case Flag(Sort) => "sort"
    case Flag(Tfo) => "tfo"
    case Flag(Udp) => "udp"
    case Flag(Scv) => "scv"
    case Flag(Tls13) => "tls13"
    case Flag(Insert) => "insert"
    case Flag(NewName) => "new_name"
    case Flag(AppendInfo) => "append_info"
    case Flag(Fdn) => "fdn"
    case Flag(Expand) => "expand"
    case Flag(Classic) => "classic"
    case Flag(List) => "list"
  }

  /** The parser's `match key`. */
  function KeyNamed(name: string): Option<Key> {
    if name == "url" then Some(Text(Url)) else if name == "group" then Some(Text(Group))
    else if name == "exclude" then Some(Text(Exclude)) else if name == "include" then Some(Text(Include))
    else if name == "rename" then Some(Text(Rename)) else if name == "emoji" then Some(Flag(Emoji))
    else if name == "add_emoji" then Some(Flag(AddEmoji)) else if name == "remove_emoji" then Some(Flag(RemoveEmoji))
    else if name == "append_type" then Some(Flag(AppendType)) else if name == "sort" then Some(Flag(Sort))
    else if name == "tfo" then Some(Flag(Tfo)) else if name == "udp" then Some(Flag(Udp))
    else if name == "scv" then Some(Flag(Scv)) else if name == "tls13" then Some(Flag(Tls13))
    else if name == "insert" then Some(Flag(Insert)) else if name == "new_name" then Some(Flag(NewName))
    else if name == "append_info" then Some(Flag(AppendInfo)) else if name == "fdn" then Some(Flag(Fdn))
    else if name == "expand" then Some(Flag(Expand)) else if name == "classic" then Some(Flag(Classic))
    else if name == "list" then Some(Flag(List)) else if name == "filename" then Some(Text(Filename))
    else if name == "filter_script" then Some(Text(FilterScript))
    else if name == "sort_script" then Some(Text(SortScript))
    else None
  }

  lemma TextRecognised(k: TextKey)
    ensures KeyNamed(Name(Text(k))) == Some(Text(k)) && Name(Text(k)) != "target"
  {
    match k
    case Url => case Group => case Exclude => case Include => case Rename => case Filename =>
    case FilterScript => case SortScript =>
  }

  lemma FlagRecognised(k: FlagKey)
    ensures KeyNamed(Name(Flag(k))) == Some(Flag(k)) && Name(Flag(k)) != "target"
  {
    match k
    case Emoji => case AddEmoji => case RemoveEmoji => case AppendType => case Sort => case Tfo => case Udp =>
    case Scv => case Tls13 => case Insert => case NewName => case AppendInfo => case Fdn => case Expand =>
    case Classic => case List =>
  }

  lemma NamesAreRecognised(k: Key)
    ensures KeyNamed(Name(k)) == Some(k) && Name(k) != "target"
  {
    hide KeyNamed, Name;
    if k.Text? { TextRecognised(k.text); } else { FlagRecognised(k.flag); }
  }

  // ---------------------------------------------------------------- percent coding

  predicate Unreserved(c: char) {
    'A' <= c <= 'Z' || 'a' <= c <= 'z' || '0' <= c <= '9' || c == '-' || c == '_' || c == '.' || c == '~'
  }

  function HexChar(n: nat): char
    requires n < 16
  {
    if n < 10 then '0' + n as char else 'A' + (n - 10) as char
  }

  function HexValue(c: char): Option<nat> {
    if '0' <= c <= '9' then Some((c - '0') as nat)
    else if 'A' <= c <= 'F' then Some((c - 'A') as nat + 10)
    else if 'a' <= c <= 'f' then Some((c - 'a') as nat + 10)
    else None
  }

  predicate IsByteText(s: string) { forall i :: 0 <= i < |s| ==> s[i] as nat < 256 }

  function EncodeChar(c: char): string
    requires c as nat < 256
  {
    if Unreserved(c) then [c] else ['%', HexChar(c as nat / 16), HexChar(c as nat % 16)]
  }

  /** `urlencoding::encode`. */
  function Encode(s: string): string
    requires IsByteText(s)
  {
    if s == "" then "" else EncodeChar(s[0]) + Encode(s[1..])
  }

  /** `urlencoding::decode` before its UTF-8 check: a percent sign without two digits stays. */
  function Decode(s: string): string {
    if s == "" then ""
    else if |s| >= 3 && s[0] == '%' && HexValue(s[1]).Some? && HexValue(s[2]).Some? then
      [(16 * HexValue(s[1]).value + HexValue(s[2]).value) as char] + Decode(s[3..])
    else [s[0]] + Decode(s[1..])
  }

  function ToBytes(s: string): seq<byte> { seq(|s|, i requires 0 <= i < |s| => s[i] as nat % 256) }

  predicate IsText(s: string) { IsByteText(s) && Addresses.IsUtf8(ToBytes(s)) }

  /** Decoded text; what is not UTF-8 becomes empty. */
  function DecodeText(s: string): string { if IsText(Decode(s)) then Decode(s) else "" }

  lemma NothingToDecode()
    ensures Decode("") == ""
  {
  }

  lemma DecodeChar(c: char, rest: string)
    requires c as nat < 256
    ensures Decode(EncodeChar(c) + rest) == [c] + Decode(rest)
  {
    var code := EncodeChar(c) + rest;
    if Unreserved(c) {
      assert code[0] == c && code[1..] == rest;
    } else {
      assert code[1] == HexChar(c as nat / 16) && code[2] == HexChar(c as nat % 16) && code[3..] == rest;
    }
  }

  lemma {:induction false} DecodeInvertsEncode(s: string)
    requires IsByteText(s)
    ensures Decode(Encode(s)) == s
  {
    hide Decode, EncodeChar;
    if s == "" {
      NothingToDecode();
    } else {
      DecodeInvertsEncode(s[1..]);
      DecodeChar(s[0], Encode(s[1..]));
      assert s == [s[0]] + s[1..];
    }
  }

  /** Text without percent signs is taken as it is, plus signs included. */
  lemma {:induction false} PercentFreeStays(s: string)
    requires '%' !in s
    ensures Decode(s) == s
  {
    if s != "" {
      PercentFreeStays(s[1..]);
      assert s == [s[0]] + s[1..];
    }
  }

  /** The characters an encoded value is made of: none is a space, an ampersand or an equals sign. */
  predicate Safe(c: char) { Unreserved(c) || c == '%' }

  predicate AllSafe(s: string) { forall i :: 0 <= i < |s| ==> Safe(s[i]) }

  lemma {:induction false} EncodedIsSafe(s: string)
    requires IsByteText(s)
    ensures AllSafe(Encode(s))
  {
    if s != "" { EncodedIsSafe(s[1..]); }
  }

  // ---------------------------------------------------------------- splitting and trimming

  predicate Trimmed(s: string) { s == "" || (!IsSpace(s[0]) && !IsSpace(s[|s| - 1])) }

  function IndexOf(s: string, c: char): (i: nat)
    ensures i <= |s| && (i < |s| ==> s[i] == c) && forall k :: 0 <= k < i ==> s[k] != c
  {
    if s == "" || s[0] == c then 0 else 1 + IndexOf(s[1..], c)
  }

  /** `split('&')`. */
  function Split(s: string): seq<string> {
    var i := IndexOf(s, '&');
    if i == |s| then [s] else [s[..i]] + Split(s[i + 1..])
  }

  /** `join("&")`. */
  function Join(parts: seq<string>): string {
    if parts == [] then "" else if |parts| == 1 then parts[0] else parts[0] + ("&" + Join(parts[1..]))
  }

  // ---------------------------------------------------------------- the printer

  predicate Has(o: ConvertOptions, k: Key) { if k.Text? then k.text in o.texts else k.flag in o.flags }

  predicate TextsOk(o: ConvertOptions) { forall k :: k in o.texts ==> IsText(o.texts[k]) }

  function Value(o: ConvertOptions, k: Key): string
    requires TextsOk(o) && Has(o, k)
  {
    if k.Text? then Encode(o.texts[k.text]) else if o.flags[k.flag] then "true" else "false"
  }

  function Part(o: ConvertOptions, k: Key): string
    requires TextsOk(o) && Has(o, k)
  {
    Name(k) + "=" + Value(o, k)
  }

  function Parts(o: ConvertOptions, keys: seq<Key>): seq<string>
    requires TextsOk(o)
  {
    if keys == [] then []
    else (if Has(o, keys[0]) then [Part(o, keys[0])] else []) + Parts(o, keys[1..])
  }

  function ToQuery(o: ConvertOptions): string
    requires TextsOk(o)
  {
    Join(["target=" + o.target] + Parts(o, ORDER))
  }

  // ---------------------------------------------------------------- the parser

  function Assign(o: ConvertOptions, key: string, value: string): ConvertOptions {
    if key == "target" then o.(target := value)
    else
      match KeyNamed(key)
      case None => o
      case Some(Text(k)) => o.(texts := o.texts[k := DecodeText(value)])
      case Some(Flag(k)) => o.(flags := o.flags[k := value == "true"])
  }

  /** One pair of the query. */
  function Apply(o: ConvertOptions, piece: string): ConvertOptions {
    var pair := Trim(piece);
    var i := IndexOf(pair, '=');
    if i == |pair| then o else Assign(o, Trim(pair[..i]), Trim(pair[i + 1..]))
  }

  function ApplyAll(o: ConvertOptions, pieces: seq<string>): ConvertOptions
    decreases |pieces|
  {
    if pieces == [] then o else ApplyAll(Apply(o, pieces[0]), pieces[1..])
  }

  function FromQuery(q: string): Result<ConvertOptions> {
    var o := ApplyAll(DEFAULT, Split(q));
    if o.target == "" then Err else Ok(o)
  }

  /** `from_query`: a loop over the pairs that sets fields. */
  method ParseQuery(q: string) returns (r: Result<ConvertOptions>)
    ensures r == FromQuery(q)
  {
    hide Apply, Split;
    var opts, pieces := DEFAULT, Split(q);
    assert pieces[0..] == pieces;
    for i := 0 to |pieces|
      invariant ApplyAll(opts, pieces[i..]) == ApplyAll(DEFAULT, pieces)
    {
      assert pieces[i..][0] == pieces[i] && pieces[i..][1..] == pieces[i + 1..];
      opts := ParsePair(opts, pieces[i]);
    }
    if opts.target == "" { return Err; }
    return Ok(opts);
  }

  method ParsePair(o: ConvertOptions, piece: string) returns (opts: ConvertOptions)
    ensures opts == Apply(o, piece)
  {
    opts := o;
    var pair := Trim(piece);
    if pair == "" { return; }
    var i := IndexOf(pair, '=');
    if i < |pair| { opts := Assign(o, Trim(pair[..i]), Trim(pair[i + 1..])); }
  }

  method PrintParts(o: ConvertOptions, first: string, keys: seq<Key>) returns (parts: seq<string>)
    requires TextsOk(o)
    ensures parts == [first] + Parts(o, keys)
  {
    hide Part, Has;
    parts := [first];
    assert keys[0..] == keys;
    for i := 0 to |keys|
      invariant parts + Parts(o, keys[i..]) == [first] + Parts(o, keys)
    {
      var k := keys[i];
      assert keys[i..][0] == k && keys[i..][1..] == keys[i + 1..];
      if Has(o, k) { parts := parts + [Part(o, k)]; }
    }
    assert keys[|keys|..] == [];
    assert parts + [] == parts;
  }

  /** `to_query`: a growing list of parts, joined at the end. */
  method PrintQuery(o: ConvertOptions) returns (q: string)
    requires TextsOk(o)
    ensures q == ToQuery(o)
  {
    hide Parts;
    var parts := PrintParts(o, "target=" + o.target, ORDER);
    q := Join(parts);
  }

  // ---------------------------------------------------------------- the round trip

  lemma SplitFirst(part: string, rest: string)
    requires '&' !in part
    ensures Split(part + ("&" + rest)) == [part] + Split(rest)
  {
    var s := part + ("&" + rest);
    assert s[|part|] == '&' && forall k :: 0 <= k < |part| ==> s[k] == part[k];
    assert IndexOf(s, '&') == |part|;
    assert s[..|part|] == part && s[|part| + 1..] == rest;
  }

  lemma {:induction false} SplitInvertsJoin(parts: seq<string>)
    requires parts != [] && forall i :: 0 <= i < |parts| ==> '&' !in parts[i]
    ensures Split(Join(parts)) == parts
  {
    if |parts| == 1 {
      assert parts == [parts[0]];
    } else {
      hide Split, IndexOf;
      SplitFirst(parts[0], Join(parts[1..]));
      SplitInvertsJoin(parts[1..]);
      assert parts == [parts[0]] + parts[1..];
    }
  }

  lemma TrimTrimmed(s: string)
    requires Trimmed(s)
    ensures Trim(s) == s
  {
  }

  /** Applying "name=value" with a trimmed, equals-free name assigns the trimmed value. */
  lemma ApplyPair(o: ConvertOptions, name: string, value: string)
    requires name != "" && Trimmed(name) && '=' !in name && Trimmed(value)
    ensures Apply(o, name + "=" + value) == Assign(o, name, value)
  {
    hide Assign;
    var s := name + "=" + value;
    assert s[0] == name[0] && s[|s| - 1] == if value == "" then '=' else value[|value| - 1];
    TrimTrimmed(s);
    assert s[|name|] == '=' && forall k :: 0 <= k < |name| ==> s[k] == name[k];
    assert IndexOf(s, '=') == |name|;
    assert s[..|name|] == name && s[|name| + 1..] == value;
    TrimTrimmed(name);
    TrimTrimmed(value);
  }

  predicate IsName(s: string) {
    s != "" && forall i :: 0 <= i < |s| ==> 'a' <= s[i] <= 'z' || '0' <= s[i] <= '9' || s[i] == '_'
  }

  lemma TextNames(k: TextKey)
    ensures IsName(Name(Text(k)))
  {
    match k
    case Url => case Group => case Exclude => case Include => case Rename => case Filename =>
    case FilterScript => case SortScript =>
  }

  lemma FlagNames(k: FlagKey)
    ensures IsName(Name(Flag(k)))
  {
    match k
    case Emoji => case AddEmoji => case RemoveEmoji => case AppendType => case Sort => case Tfo => case Udp =>
    case Scv => case Tls13 => case Insert => case NewName => case AppendInfo => case Fdn => case Expand =>
    case Classic => case List =>
  }

  lemma NamesAreClean(k: Key)
    ensures Name(k) != "" && Trimmed(Name(k)) && '=' !in Name(k) && '&' !in Name(k)
  {
    hide Name;
    if k.Text? { TextNames(k.text); } else { FlagNames(k.flag); }
  }

  lemma ValueIsSafe(o: ConvertOptions, k: Key)
    requires TextsOk(o) && Has(o, k)
    ensures AllSafe(Value(o, k)) && Trimmed(Value(o, k)) && '&' !in Part(o, k)
  {
    hide Name;
    if k.Text? { EncodedIsSafe(o.texts[k.text]); }
    NamesAreClean(k);
  }

  /** Field `k` set as in `from`. */
  function WithField(o: ConvertOptions, from: ConvertOptions, k: Key): ConvertOptions
    requires Has(from, k)
  {
    if k.Text? then o.(texts := o.texts[k.text := from.texts[k.text]])
    else o.(flags := o.flags[k.flag := from.flags[k.flag]])
  }

  lemma ApplyPart(o: ConvertOptions, from: ConvertOptions, k: Key)
    requires TextsOk(from) && Has(from, k)
    ensures Apply(o, Part(from, k)) == WithField(o, from, k)
  {
    hide Apply, Name, KeyNamed;
    NamesAreClean(k);
    ValueIsSafe(from, k);
    ApplyPair(o, Name(k), Value(from, k));
    NamesAreRecognised(k);
    if k.Text? { DecodeInvertsEncode(from.texts[k.text]); }
  }

  /** Field by field, the parsed options become the printed ones. */
  lemma {:induction false} ApplyParts(o: ConvertOptions, from: ConvertOptions, keys: seq<Key>)
    requires TextsOk(from)
    requires forall k :: k in o.texts ==> k in from.texts && o.texts[k] == from.texts[k]
    requires forall k :: k in o.flags ==> k in from.flags && o.flags[k] == from.flags[k]
    ensures var r := ApplyAll(o, Parts(from, keys));
            && r.target == o.target && r.unprinted == o.unprinted
            && (forall k :: k in r.texts <==> k in o.texts || (k in from.texts && Text(k) in keys))
            && (forall k :: k in r.flags <==> k in o.flags || (k in from.flags && Flag(k) in keys))
            && (forall k :: k in r.texts ==> k in from.texts && r.texts[k] == from.texts[k])
            && (forall k :: k in r.flags ==> k in from.flags && r.flags[k] == from.flags[k])
    decreases |keys|
  {
    hide Apply, Part;
    if keys != [] {
      var k, rest := keys[0], keys[1..];
      assert keys == [k] + rest;
      if Has(from, k) {
        ApplyPart(o, from, k);
        assert Parts(from, keys)[1..] == Parts(from, rest);
        ApplyParts(WithField(o, from, k), from, rest);
      } else {
        assert Parts(from, keys) == Parts(from, rest);
        ApplyParts(o, from, rest);
      }
    }
  }

  lemma {:induction false} PartsHaveNoAmpersand(o: ConvertOptions, keys: seq<Key>)
    requires TextsOk(o)
    ensures forall i :: 0 <= i < |Parts(o, keys)| ==> '&' !in Parts(o, keys)[i]
  {
    hide Part;
    if keys != [] {
      if Has(o, keys[0]) { ValueIsSafe(o, keys[0]); }
      PartsHaveNoAmpersand(o, keys[1..]);
    }
  }

  lemma EveryKeyIsPrinted(k: Key)
    ensures k in ORDER
  {
    var i := match k
      case Text(Url) => 0 case Text(Group) => 1 case Text(Exclude) => 2 case Text(Include) => 3 case Text(Rename) => 4
      case Flag(Emoji) => 5 case Flag(AddEmoji) => 6 case Flag(RemoveEmoji) => 7 case Flag(AppendType) => 8
      case Flag(Sort) => 9 case Flag(Tfo) => 10 case Flag(Udp) => 11 case Flag(Scv) => 12 case Flag(Tls13) => 13
      case Flag(Insert) => 14 case Flag(NewName) => 15 case Flag(AppendInfo) => 16 case Flag(Fdn) => 17
      case Flag(Expand) => 18 case Flag(Classic) => 19 case Flag(List) => 20
      case Text(Filename) => 21 case Text(FilterScript) => 22 case Text(SortScript) => 23;
    assert ORDER[i] == k;
  }

  /** In every query the last pair of a key decides, whatever came before it: a text is decoded, a flag
      is set exactly by "true", and no other field changes. */
  lemma LastPairWins(o: ConvertOptions, pieces: seq<string>, k: Key, value: string)
    requires Trimmed(value)
    ensures var before, after := ApplyAll(o, pieces), ApplyAll(o, pieces + [Name(k) + "=" + value]);
            after == if k.Text? then before.(texts := before.texts[k.text := DecodeText(value)])
                     else before.(flags := before.flags[k.flag := value == "true"])
  {
    hide Apply, KeyNamed, Name, DecodeText;
    var piece := Name(k) + "=" + value;
    ApplyLast(o, pieces, piece);
    NamesAreClean(k);
    NamesAreRecognised(k);
    ApplyPair(ApplyAll(o, pieces), Name(k), value);
  }

  lemma {:induction false} ApplyLast(o: ConvertOptions, pieces: seq<string>, piece: string)
    ensures ApplyAll(o, pieces + [piece]) == Apply(ApplyAll(o, pieces), piece)
    decreases |pieces|
  {
    hide Apply;
    if pieces == [] {
      assert [piece][1..] == [] && pieces + [piece] == [piece];
    } else {
      assert (pieces + [piece])[1..] == pieces[1..] + [piece];
      ApplyLast(Apply(o, pieces[0]), pieces[1..], piece);
    }
  }

  /** A target that the unescaped first pair carries faithfully. */
  predicate Plain(target: string) { target != "" && Trimmed(target) && '&' !in target }

  lemma TargetPair(o: ConvertOptions, target: string)
    requires Trimmed(target)
    ensures Apply(o, "target=" + target) == o.(target := target)
  {
    hide Apply, KeyNamed;
    assert "target=" + target == "target" + "=" + target;
    ApplyPair(o, "target", target);
  }

  lemma RoundTripWith(o: ConvertOptions, first: string, keys: seq<Key>)
    requires TextsOk(o) && Plain(o.target) && (forall k: Key :: k in keys)
    requires '&' !in first && Apply(DEFAULT, first) == DEFAULT.(target := o.target)
    ensures ApplyAll(DEFAULT, Split(Join([first] + Parts(o, keys)))) == o.(unprinted := NOTHING)
  {
    hide Apply, Parts, Split, Join;
    var parts, start := Parts(o, keys), DEFAULT.(target := o.target);
    PartsHaveNoAmpersand(o, keys);
    SplitInvertsJoin([first] + parts);
    assert ([first] + parts)[1..] == parts;
    ApplyParts(start, o, keys);
    var r := ApplyAll(start, parts);
    assert forall k: TextKey :: Text(k) in keys;
    assert forall k: FlagKey :: Flag(k) in keys;
    assert r.texts == o.texts && r.flags == o.flags;
  }

  lemma PlainRoundTrips(o: ConvertOptions)
    requires TextsOk(o) && Plain(o.target)
    ensures FromQuery(ToQuery(o)) == Ok(o.(unprinted := NOTHING))
  {
    hide Apply, Parts, Split, Join, ApplyAll;
    TargetPair(DEFAULT, o.target);
    forall k: Key ensures k in ORDER { EveryKeyIsPrinted(k); }
    RoundTripWith(o, "target=" + o.target, ORDER);
  }

  // ---------------------------------------------------------------- only plain targets round-trip

  lemma {:induction false} SplitPieces(s: string)
    ensures forall i :: 0 <= i < |Split(s)| ==> '&' !in Split(s)[i]
    decreases |s|
  {
    var i := IndexOf(s, '&');
    if i < |s| { SplitPieces(s[i + 1..]); }
  }

  lemma {:induction false} TrimStartKeeps(s: string)
    ensures TrimStart(s) == "" || !IsSpace(TrimStart(s)[0])
    ensures '&' !in s ==> '&' !in TrimStart(s)
  {
    if s != "" && IsSpace(s[0]) { TrimStartKeeps(s[1..]); }
  }

  lemma {:induction false} TrimEndKeeps(s: string)
    ensures TrimEnd(s) <= s && (TrimEnd(s) == "" || !IsSpace(TrimEnd(s)[|TrimEnd(s)| - 1]))
    ensures '&' !in s ==> '&' !in TrimEnd(s)
  {
    if s != "" && IsSpace(s[|s| - 1]) { TrimEndKeeps(s[..|s| - 1]); }
  }

  /** The parser only ever stores trimmed targets without ampersand. */
  lemma AppliedTarget(o: ConvertOptions, piece: string)
    requires '&' !in piece && Trimmed(o.target) && '&' !in o.target
    ensures Trimmed(Apply(o, piece).target) && '&' !in Apply(o, piece).target
  {
    hide KeyNamed, DecodeText, TrimStart, TrimEnd;
    TrimStartKeeps(piece);
    TrimEndKeeps(TrimStart(piece));
    var pair := Trim(piece);
    var i := IndexOf(pair, '=');
    if i < |pair| {
      var value := pair[i + 1..];
      TrimStartKeeps(value);
      TrimEndKeeps(TrimStart(value));
      assert Trimmed(Trim(value)) && '&' !in Trim(value);
    }
  }

  lemma {:induction false} ParsedTarget(o: ConvertOptions, pieces: seq<string>)
    requires (forall i :: 0 <= i < |pieces| ==> '&' !in pieces[i]) && Trimmed(o.target) && '&' !in o.target
    ensures var t := ApplyAll(o, pieces).target; Trimmed(t) && '&' !in t
    decreases |pieces|
  {
    hide Apply;
    if pieces != [] {
      AppliedTarget(o, pieces[0]);
      ParsedTarget(Apply(o, pieces[0]), pieces[1..]);
    }
  }

  /** Printing and parsing gives the options back, with the unprinted fields cleared, if and only
      if the target is non-empty, free of surrounding space and free of ampersands. */
  lemma RoundTripExactly(o: ConvertOptions)
    requires TextsOk(o)
    ensures FromQuery(ToQuery(o)) == Ok(o.(unprinted := NOTHING)) <==> Plain(o.target)
  {
    hide ApplyAll, Split, ToQuery;
    if Plain(o.target) { PlainRoundTrips(o); }
    SplitPieces(ToQuery(o));
    ParsedTarget(DEFAULT, Split(ToQuery(o)));
  }
}
