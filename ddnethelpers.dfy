/**
 * Display helpers for DDNet data (src/lib/ddnet/helpers.ts): a difficulty rendered as
 * five-star text, map type names translated through a lookup table, and country codes
 * mapped to flag images through another.
 *
 * Both tables are plain object literals, so a lookup also sees the members every
 * object inherits from `Object.prototype`; `MapTypeAsWritten` and `FlagAssetAsWritten`
 * model that, and `MapType` and `FlagAsset` are the lookups on the tables' own keys.
 */
module DdnetHelpers {
  import opened Common
  import opened JsText

  /** `Math.round` on a finite number: the nearest integer, halves rounded up. */
  function Round(x: real): (k: int)
    ensures x - 0.5 < k as real <= x + 0.5
  {
    (x + 0.5).Floor
  }

  function Repeat(c: char, n: nat): (r: string)
    ensures |r| == n && forall i :: 0 <= i < n ==> r[i] == c
  {
    seq(n, _ => c)
  }

  /** How many times `c` occurs in `s`. */
  function Count(c: char, s: string): nat {
    if s == [] then 0 else Count(c, s[..|s| - 1]) + (if s[|s| - 1] == c then 1 else 0)
  }

  /**
   * `numberToStars(num)`: `Math.round(num)` filled stars, then empty stars up to five;
   * `None` is the `RangeError` that `repeat` throws for a negative count.
   */
  function NumberToStars(num: real): (r: Option<string>)
    ensures r.Some? <==> Round(num) >= 0
    ensures r.Some? ==> |r.value| == (if Round(num) < 5 then 5 else Round(num))
    ensures r.Some? ==> forall i :: 0 <= i < |r.value| ==> r.value[i] == if i < Round(num) then '★' else '☆'
  {
    var stars := Round(num);
    if stars < 0 then None else Some(Repeat('★', stars) + Repeat('☆', if 5 - stars > 0 then 5 - stars else 0))
  }

  /** Counting the filled stars gives the rounded number back. */
  lemma StarsDecode(num: real)
    requires Round(num) >= 0
    ensures Count('★', NumberToStars(num).value) == Round(num)
  {
    var s := NumberToStars(num).value;
    CountPrefix(s, Round(num));
  }

  /** `c` fills exactly the first `n` places of `s`. */
  lemma {:induction false} CountPrefix(s: string, n: nat)
    requires n <= |s|
    requires forall i :: 0 <= i < |s| ==> (s[i] == '★' <==> i < n)
    ensures Count('★', s) == n
  {
    if s != [] {
      var init := s[..|s| - 1];
      if n == |s| {
        CountPrefix(init, n - 1);
      } else {
        CountPrefix(init, n);
      }
    }
  }

  /** A difficulty that rounds into 0..5 is always five characters wide. */
  lemma StarsFiveWide(num: real)
    requires -0.5 <= num < 5.5
    ensures NumberToStars(num).Some? && |NumberToStars(num).value| == 5
  {
    assert 0 <= Round(num) <= 5;
  }

  /** `MAP_TYPES`: map types (lower case) to their display names. */
  const MAP_TYPES: map<string, string> := map[
    "solo" := "单人", "dummy" := "分身", "novice" := "新手", "moderate" := "中阶",
    "brutal" := "高阶", "insane" := "疯狂", "oldschool" := "传统", "race" := "竞速",
    "fun" := "娱乐", "ddmax.easy" := "古典.Easy", "ddmax.next" := "古典.Next",
    "ddmax.pro" := "古典.Pro", "ddmax.nut" := "古典.Nut"]

  const FLAG_DEFAULT: string := "/assets/flags/default.png"

  /** `FLAG_MAP`: three-letter server regions to flag images. */
  const FLAG_MAP: map<string, string> := map[
    "GER" := "/assets/flags/DE.png", "CHN" := "/assets/flags/CN.png",
    "JPN" := "/assets/flags/JP.png", "KOR" := "/assets/flags/KR.png",
    "RUS" := "/assets/flags/RU.png", "SGP" := "/assets/flags/SG.png",
    "IND" := "/assets/flags/IN.png", "AUS" := "/assets/flags/AU.png",
    "ZAF" := "/assets/flags/ZA.png", "USA" := "/assets/flags/US.png",
    "BRA" := "/assets/flags/BR.png", "CHL" := "/assets/flags/CL.png",
    "POL" := "/assets/flags/PL.png", "IRN" := "/assets/flags/IR.png",
    "BHR" := "/assets/flags/BH.png", "FIN" := "/assets/flags/FI.png",
    "UKR" := "/assets/flags/UA.png", "TUR" := "/assets/flags/TR.png",
    "ARG" := "/assets/flags/AR.png", "EUR" := "/assets/flags/EU.png"]

  /** The property names every object literal inherits from `Object.prototype`. */
  const OBJECT_PROTOTYPE: set<string> := {
    "constructor", "__proto__", "hasOwnProperty", "isPrototypeOf", "propertyIsEnumerable",
    "toLocaleString", "toString", "valueOf", "__defineGetter__", "__defineSetter__",
    "__lookupGetter__", "__lookupSetter__"}

  /** A JavaScript value as far as these lookups can produce one. */
  datatype JsValue = JsString(s: string) | Inherited(name: string)

  /** `table[key]` on an object literal: an own property, else an inherited one. */
  function Property(table: map<string, string>, key: string): Option<JsValue> {
    if key in table then Some(JsString(table[key]))
    else if key in OBJECT_PROTOTYPE then Some(Inherited(key))
    else None
  }

  /** `table[key] || fallback`: the property when it is truthy, else the fallback. */
  function OrElse(v: Option<JsValue>, fallback: string): JsValue {
    match v
    case Some(JsString(s)) => if s == [] then JsString(fallback) else JsString(s)
    case Some(Inherited(name)) => Inherited(name)
    case None => JsString(fallback)
  }

  /** `mapType(type)` as written: the lookup also finds inherited members. */
  function MapTypeAsWritten(lower: Lower, t: string): JsValue {
    OrElse(Property(MAP_TYPES, lower(t)), t)
  }

  /** `flagAsset(flag)` as written. */
  function FlagAssetAsWritten(flag: string): JsValue {
    OrElse(Property(FLAG_MAP, flag), FLAG_DEFAULT)
  }

  /** The map type "constructor" comes back as the `Object` function, not as text. */
  lemma MapTypeConstructor(lower: Lower)
    requires lower("constructor") == "constructor"
    ensures !MapTypeAsWritten(lower, "constructor").JsString?
  {
  }

  /** The region "toString" comes back as a function, not as an image path. */
  lemma FlagAssetToString()
    ensures !FlagAssetAsWritten("toString").JsString?
  {
  }

  /** `mapType(type)` on the table's own keys: the display name, or the input itself. */
  function MapType(lower: Lower, t: string): (r: string)
    ensures lower(t) in MAP_TYPES ==> r in MAP_TYPES.Values
    ensures lower(t) !in MAP_TYPES ==> r == t
  {
    if lower(t) in MAP_TYPES then MAP_TYPES[lower(t)] else t
  }

  /** `flagAsset(flag)` on the table's own keys: the flag image, or the default one. */
  function FlagAsset(flag: string): (r: string)
    ensures r == FLAG_DEFAULT <==> flag !in FLAG_MAP
    ensures IsPrefix("/assets/flags/", r)
  {
    if flag in FLAG_MAP then FLAG_MAP[flag] else FLAG_DEFAULT
  }

  /** Away from the inherited names, the lookup as written returns what `MapType` does. */
  lemma MapTypeAgrees(lower: Lower, t: string)
    requires lower(t) !in OBJECT_PROTOTYPE
    ensures MapTypeAsWritten(lower, t) == JsString(MapType(lower, t))
  {
  }

  /** Away from the inherited names, the lookup as written returns what `FlagAsset` does. */
  lemma FlagAssetAgrees(flag: string)
    requires flag !in OBJECT_PROTOTYPE
    ensures FlagAssetAsWritten(flag) == JsString(FlagAsset(flag))
  {
  }

  /** Different known map types get different display names. */
  lemma MapTypeDistinct(lower: Lower, a: string, b: string)
    requires lower(a) in MAP_TYPES && lower(b) in MAP_TYPES
    requires MapType(lower, a) == MapType(lower, b)
    ensures lower(a) == lower(b)
  {
  }
}
