/**
 * Station, the value type carried by every vertex (code/Station.h, code/Station.cpp).
 * Identity is the name alone: equality and hashing look at nothing else, so a
 * `StationH` (an unordered set with that hash and equality) keeps one station per name.
 */
module Stations {
  import opened Wrappers

  datatype Station = Station(
    name: string,
    district: string,
    municipality: string,
    township: string,
    line: string)

  /** `Station(name)`: the other four fields keep their default, the empty string. */
  function NamedStation(name: string): (s: Station)
    ensures s.name == name
    ensures s.district == "" && s.municipality == "" && s.township == "" && s.line == ""
  {
    Station(name, "", "", "", "")
  }

  /** The five-argument constructor stores every argument; the getters give them back. */
  function FullStation(name: string, district: string, municipality: string,
                       township: string, line: string): (s: Station)
    ensures s.name == name && s.district == district && s.municipality == municipality
    ensures s.township == township && s.line == line
  {
    Station(name, district, municipality, township, line)
  }

  /** `StationHash::operator()(a, b)`: two stations are the same key iff their names are equal. */
  predicate SameStation(a: Station, b: Station) {
    a.name == b.name
  }

  lemma SameStationIsEquivalence(a: Station, b: Station, c: Station)
    ensures SameStation(a, a)
    ensures SameStation(a, b) ==> SameStation(b, a)
    ensures SameStation(a, b) && SameStation(b, c) ==> SameStation(a, c)
  {
  }

  /** A station built from a name alone is the key `find(name)` looks for. */
  lemma NamedStationFindsByName(name: string, s: Station)
    ensures SameStation(NamedStation(name), s) <==> s.name == name
  {
  }

  const TwoTo31: int := 0x8000_0000
  const TwoTo32: int := 0x1_0000_0000

  /** Two's-complement wrap-around of a 32-bit `int`, as the hash fold overflows in practice. */
  function Wrap32(x: int): (r: int)
    ensures -TwoTo31 <= r < TwoTo31
    ensures (x - r) % TwoTo32 == 0
  {
    var m := x % TwoTo32;
    if m >= TwoTo31 then m - TwoTo32 else m
  }

  /** A byte as a signed `char` reads it: values from 128 up wrap to negative. */
  function Signed(b: int): (c: int)
    requires 0 <= b < 256
    ensures -128 <= c < 128 && (b - c) % 256 == 0
  {
    if b < 128 then b else b - 256
  }

  /** The UTF-8 encoding of one character, the bytes a `std::string` holds for it. */
  function CharBytes(c: char): (bs: seq<int>)
    ensures 1 <= |bs| <= 4
    ensures forall k :: 0 <= k < |bs| ==> 0 <= bs[k] < 256
    ensures |bs| == 1 <==> (c as int) < 0x80
  {
    var n := c as int;
    if n < 0x80 then [n]
    else if n < 0x800 then [0xC0 + n / 0x40, 0x80 + n % 0x40]
    else if n < 0x1_0000 then [0xE0 + n / 0x1000, 0x80 + (n / 0x40) % 0x40, 0x80 + n % 0x40]
    else [0xF0 + n / 0x4_0000, 0x80 + (n / 0x1000) % 0x40, 0x80 + (n / 0x40) % 0x40, 0x80 + n % 0x40]
  }

  /** The bytes of a name, as the `char`s the hash loop reads, each in -128..127. */
  function NameChars(name: string): (cs: seq<int>)
    ensures forall k :: 0 <= k < |cs| ==> -128 <= cs[k] < 128
    ensures |name| <= |cs| <= 4 * |name|
  {
    if name == [] then []
    else
      var bs := CharBytes(name[|name| - 1]);
      NameChars(name[..|name| - 1]) + seq(|bs|, k requires 0 <= k < |bs| => Signed(bs[k]))
  }

  /** The left fold `v := 37 * v + c` from `v = 0`, in 32-bit arithmetic. */
  function Fold(cs: seq<int>): int {
    if cs == [] then 0
    else Wrap32(37 * Fold(cs[..|cs| - 1]) + cs[|cs| - 1])
  }

  /** The hash of a name: the fold over its bytes. */
  function NameHash(name: string): int {
    Fold(NameChars(name))
  }

  /** One more byte folds into the hash of the bytes read so far. */
  lemma FoldStep(prefix: seq<int>, c: int)
    ensures Fold(prefix + [c]) == Wrap32(37 * Fold(prefix) + c)
  {
    assert (prefix + [c])[..|prefix|] == prefix;
  }

  /** A name in plain ASCII is its own byte string: each character is one byte, unchanged. */
  lemma {:induction false} AsciiNameChars(name: string)
    requires forall k :: 0 <= k < |name| ==> (name[k] as int) < 0x80
    ensures NameChars(name) == seq(|name|, k requires 0 <= k < |name| => name[k] as int)
  {
    if name != [] {
      var n := |name| - 1;
      AsciiNameChars(name[..n]);
    }
  }

  /** "Évora" is six bytes, the first two of them negative as `char`s. */
  lemma AccentedName()
    ensures NameChars("\U{C9}vora") == [-61, -119, 118, 111, 114, 97]
  {
    assert NameChars("\U{C9}") == [-61, -119] by {
      assert "\U{C9}"[..0] == [];
    }
    assert "\U{C9}v"[..1] == "\U{C9}";
    assert NameChars("\U{C9}v") == [-61, -119, 118];
    assert "\U{C9}vo"[..2] == "\U{C9}v";
    assert NameChars("\U{C9}vo") == [-61, -119, 118, 111];
    assert "\U{C9}vor"[..3] == "\U{C9}vo";
    assert NameChars("\U{C9}vor") == [-61, -119, 118, 111, 114];
    assert "\U{C9}vora"[..4] == "\U{C9}vor";
  }

  /** `StationHash::operator()(station)`: a loop over the name's `char`s. */
  method StationHash(station: Station) returns (v: int)
    ensures v == NameHash(station.name)
    ensures station.name == "" ==> v == 0
    ensures -TwoTo31 <= v < TwoTo31
  {
    var c := NameChars(station.name);
    v := 0;
    var i := 0;
    while i < |c|
      invariant 0 <= i <= |c|
      invariant v == Fold(c[..i])
      invariant -TwoTo31 <= v < TwoTo31
    {
      FoldStep(c[..i], c[i]);
      assert c[..i] + [c[i]] == c[..i + 1];
      v := Wrap32(37 * v + c[i]);
      i := i + 1;
    }
    assert c[..|c|] == c;
  }

  /** Stations that are the same key hash alike, so the hash never splits one key in two. */
  lemma SameStationSameHash(a: Station, b: Station)
    requires SameStation(a, b)
    ensures NameHash(a.name) == NameHash(b.name)
  {
  }

  /**
   * `StationH`: an unordered set of stations under name equality, kept as a map from a
   * name to the one station stored under it.
   */
  type StationH = map<string, Station>

  ghost predicate KeyedByName(h: StationH) {
    forall n :: n in h ==> h[n].name == n
  }

  /** `h.insert(s)`: a station whose name is already present is not stored again. */
  function Insert(h: StationH, s: Station): (r: StationH)
    requires KeyedByName(h)
    ensures KeyedByName(r)
    ensures s.name in r && r.Keys == h.Keys + {s.name}
    ensures s.name in h ==> r == h
    ensures s.name !in h ==> r[s.name] == s
    ensures forall n :: n in h ==> n in r && r[n] == h[n]
  {
    if s.name in h then h else h[s.name := s]
  }

  /** `h.find(name) != h.end()`. */
  predicate Contains(h: StationH, name: string) {
    name in h
  }

  /** `h.find(name)`: the stored station with that name, if any. */
  function Find(h: StationH, name: string): (r: Option<Station>)
    requires KeyedByName(h)
    ensures r.Some? <==> Contains(h, name)
    ensures r.Some? ==> r.value.name == name && r.value == h[name]
  {
    if name in h then Some(h[name]) else None
  }
}
