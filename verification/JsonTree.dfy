/** The pc_JSON tree and the accessors the codecs use on it.

    A C string is modelled by the characters before its terminator, one `char`
    per C byte.  `valuedouble` is a real number: rounding is not modelled. */
module JsonTree {
  import opened Basics
  import opened Words

  datatype Member = Member(name: string, value: Json)

  datatype Json =
    | Null
    | False
    | True
    | Number(valueint: int, valuedouble: real)
    | String(text: string)
    | Array(items: seq<Json>)
    | Object(members: seq<Member>)

  /** Every C byte but the terminator. */
  ghost predicate CText(s: string) {
    forall i :: 0 <= i < |s| ==> 0 < s[i] as int < 256
  }

  /** (int) applied to a double. */
  function Truncate(d: real): int {
    if d >= 0.0 then d.Floor else -((-d).Floor)
  }

  /** It cuts off what is behind the point, towards zero. */
  lemma TruncateForm(d: real, i: int)
    ensures Truncate(d) == i
       <==> if d >= 0.0 then i as real <= d < i as real + 1.0 else i as real - 1.0 < d <= i as real
  {
  }

  /** Is (int) defined for it? */
  predicate FitsInt(d: real) {
    -0x8000_0000 <= Truncate(d) < 0x8000_0000
  }

  /** pc_JSON_CreateNumber, for a number that fits an int. */
  function CreateNumber(d: real): Json {
    Number(Truncate(d), d)
  }

  lemma CreateNumberOfInt(i: int)
    ensures CreateNumber(i as real) == Number(i, i as real)
    ensures FitsInt(i as real) <==> -0x8000_0000 <= i < 0x8000_0000
  {
    if i < 0 {
      assert -(i as real) == (-i) as real;
    }
  }

  /** The integer field of a node; only numbers and the parser's `true` set it. */
  function ValueInt(j: Json): int {
    match j
    case Number(i, _) => i
    case True => 1
    case _ => 0
  }

  function ValueDouble(j: Json): real {
    match j
    case Number(_, d) => d
    case _ => 0.0
  }

  /** The string field of a node, NULL for all but strings. */
  function ValueString(j: Json): Option<string> {
    match j
    case String(t) => Some(t)
    case _ => None
  }

  /** First member with the given name. */
  function Find(ms: seq<Member>, key: string): (r: Option<Json>)
    ensures r.Some? ==> Member(key, r.value) in ms
    ensures r.None? ==> forall m <- ms :: m.name != key
  {
    if ms == [] then None
    else if ms[0].name == key then Some(ms[0].value)
    else Find(ms[1..], key)
  }

  /** It is the first one that is found. */
  lemma {:induction false} FindIsFirst(ms: seq<Member>, i: nat)
    requires i < |ms| && forall j :: 0 <= j < i ==> ms[j].name != ms[i].name
    ensures Find(ms, ms[i].name) == Some(ms[i].value)
  {
    if i > 0 {
      FindIsFirst(ms[1..], i - 1);
    }
  }

  /** pc_JSON_GetObjectItem. */
  function GetItem(j: Json, key: string): Option<Json> {
    match j
    case Object(ms) => Find(ms, key)
    case _ => None
  }

  /** A search in it compares with names its items do not have. */
  predicate Unnamed(j: Json) {
    j.Array? && j.items != []
  }

  /** GetItem followed by `->valuestring`; None where C would meet NULL. */
  function ItemText(j: Json, key: string): Option<string> {
    match GetItem(j, key)
    case Some(item) => ValueString(item)
    case None => None
  }

  /** Replaces the value of the first member with the given name: the effect of
      updating that member through the pointer pc_JSON_GetObjectItem returned. */
  function Update(ms: seq<Member>, key: string, j: Json): seq<Member> {
    if ms == [] then []
    else if ms[0].name == key then [Member(key, j)] + ms[1..]
    else [ms[0]] + Update(ms[1..], key, j)
  }

  lemma {:induction false} FindAppend(ms: seq<Member>, m: Member)
    requires forall x <- ms :: x.name != m.name
    ensures Find(ms + [m], m.name) == Some(m.value)
    ensures forall j: Json :: Update(ms + [m], m.name, j) == ms + [Member(m.name, j)]
  {
    if ms != [] {
      assert (ms + [m])[1..] == ms[1..] + [m];
      FindAppend(ms[1..], m);
      forall j: Json
        ensures Update(ms + [m], m.name, j) == ms + [Member(m.name, j)]
      {
        assert Update(ms + [m], m.name, j) == [ms[0]] + Update(ms[1..] + [m], m.name, j);
      }
    } else {
      assert (ms + [m])[1..] == [];
    }
  }

  /** Bytes of a C string and back.  Reading stops at the first NUL, as
      pc_JSON_CreateString's copy does. */
  function ToBytes(s: string): seq<Byte> {
    seq(|s|, i requires 0 <= i < |s| => s[i] as int % 256)
  }

  function FromBytes(b: seq<Byte>): string {
    if b == [] || b[0] == 0 then "" else [b[0] as char] + FromBytes(b[1..])
  }

  lemma {:induction false} TextRoundTrip(s: string)
    requires CText(s)
    ensures FromBytes(ToBytes(s)) == s
  {
    if s != "" {
      assert ToBytes(s)[1..] == ToBytes(s[1..]);
      TextRoundTrip(s[1..]);
      assert ToBytes(s)[0] == s[0] as int;
      assert [s[0]] + s[1..] == s;
    }
  }
}
