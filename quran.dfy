/** model/quran.rs: the custom deserializer of `QuranApiResponse.data`, which looks at the kind of
    JSON value first. Decoding an object as `VerseData` is serde's derived decoder and is a
    parameter here, `decodeVerse`, returning the decoded verse or serde's error text. */
module Quran {
  import opened Wrappers

  /** A `serde_json::Value`; numbers are kept as their text. */
  datatype JsonValue =
    | Null
    | Bool(b: bool)
    | Number(text: string)
    | String(s: string)
    | Array(items: seq<JsonValue>)
    | Object(members: seq<(string, JsonValue)>)

  datatype Edition = Edition(identifier: string, language: string, name: string, englishName: string,
                             format: string, editionType: string, direction: string)

  datatype Surah = Surah(number: nat, name: string, englishName: string, englishNameTranslation: string,
                         numberOfAyahs: nat, revelationType: string)

  datatype VerseData = VerseData(number: nat, text: string, edition: Edition, surah: Surah, numberInSurah: nat,
                                 juz: nat, manzil: nat, page: nat, ruku: nat, hizbQuarter: nat, sajda: bool)

  datatype QuranData = Verse(verse: VerseData) | ErrorMessage(message: string)

  datatype QuranApiResponse = QuranApiResponse(code: nat, status: string, data: QuranData)

  const UnexpectedValue := "Unexpected value for QuranData"

  /** `deserialize_data` (quran.rs:4-19). */
  function DeserializeData(v: JsonValue, decodeVerse: JsonValue -> Result<VerseData, string>): Result<QuranData, string> {
    match v
    case Object(_) =>
      (match decodeVerse(v)
       case Ok(verse) => Ok(Verse(verse))
       case Err(e) => Err(e))
    case String(s) => Ok(ErrorMessage(s))
    case _ => Err(UnexpectedValue)
  }

  /** An object is a verse exactly when it decodes as one, and its decoding error is passed on
      otherwise; a string is an error message kept verbatim; every other kind is the fixed error.
      So only an object can yield a verse and only a string an error message. */
  lemma DeserializeDataSpec(v: JsonValue, decodeVerse: JsonValue -> Result<VerseData, string>)
    ensures v.Object? ==>
      (DeserializeData(v, decodeVerse).Ok? <==> decodeVerse(v).Ok?)
      && (decodeVerse(v).Ok? ==> DeserializeData(v, decodeVerse) == Ok(Verse(decodeVerse(v).value)))
      && (decodeVerse(v).Err? ==> DeserializeData(v, decodeVerse) == Err(decodeVerse(v).error))
    ensures v.String? ==> DeserializeData(v, decodeVerse) == Ok(ErrorMessage(v.s))
    ensures v.Null? || v.Bool? || v.Number? || v.Array? ==> DeserializeData(v, decodeVerse) == Err(UnexpectedValue)
    ensures DeserializeData(v, decodeVerse).Ok? && DeserializeData(v, decodeVerse).value.Verse? ==> v.Object?
    ensures DeserializeData(v, decodeVerse).Ok? && DeserializeData(v, decodeVerse).value.ErrorMessage? ==> v.String?
  {
  }

  /** The decoder is consulted only for objects: for any other kind, the result does not depend
      on it. */
  lemma DecoderOnlyForObjects(v: JsonValue, decodeVerse: JsonValue -> Result<VerseData, string>, decodeVerse': JsonValue -> Result<VerseData, string>)
    requires !v.Object?
    ensures DeserializeData(v, decodeVerse) == DeserializeData(v, decodeVerse')
  {
  }

  /** The three fields of `QuranApiResponse` (quran.rs:21-28), in declaration order. */
  datatype Field = CodeField | StatusField | DataField

  function KeyOf(f: Field): string {
    match f
    case CodeField => "code"
    case StatusField => "status"
    case DataField => "data"
  }

  /** The error from decoding the value under key `f`, if any: `code` and `status` by serde,
      `data` through `deserialize_data`. */
  function ValueError(f: Field, code: Result<nat, string>, status: Result<string, string>, data: JsonValue,
                      decodeVerse: JsonValue -> Result<VerseData, string>): Option<string> {
    match f
    case CodeField => if code.Err? then Some(code.error) else None
    case StatusField => if status.Err? then Some(status.error) else None
    case DataField =>
      (match DeserializeData(data, decodeVerse)
       case Err(e) => Some(e)
       case Ok(_) => None)
  }

  predicate Distinct(keys: seq<Field>) {
    forall i, j :: 0 <= i < j < |keys| ==> keys[i] != keys[j]
  }

  /** serde's derived visitor walks the object's known keys in the order they appear: a key met a
      second time is "duplicate field", otherwise its value is decoded at once and the first
      failure ends the walk. `seen` holds the keys already met. */
  function ScanError(keys: seq<Field>, seen: set<Field>, code: Result<nat, string>, status: Result<string, string>,
                     data: JsonValue, decodeVerse: JsonValue -> Result<VerseData, string>): Option<string>
    decreases |keys|
  {
    if keys == [] then None
    else if keys[0] in seen then Some("duplicate field `" + KeyOf(keys[0]) + "`")
    else if ValueError(keys[0], code, status, data, decodeVerse).Some? then ValueError(keys[0], code, status, data, decodeVerse)
    else ScanError(keys[1..], seen + {keys[0]}, code, status, data, decodeVerse)
  }

  /** The walk ends without an error exactly when no key repeats (nor repeats one in `seen`) and
      every value met decodes. */
  lemma {:induction false} ScanErrorNone(keys: seq<Field>, seen: set<Field>, code: Result<nat, string>, status: Result<string, string>,
                                         data: JsonValue, decodeVerse: JsonValue -> Result<VerseData, string>)
    ensures ScanError(keys, seen, code, status, data, decodeVerse).None? <==>
      && Distinct(keys)
      && (forall i :: 0 <= i < |keys| ==> keys[i] !in seen)
      && (forall i :: 0 <= i < |keys| ==> ValueError(keys[i], code, status, data, decodeVerse).None?)
    decreases |keys|
  {
    if keys != [] {
      ScanErrorNone(keys[1..], seen + {keys[0]}, code, status, data, decodeVerse);
      if ScanError(keys, seen, code, status, data, decodeVerse).None? {
        forall i, j | 0 <= i < j < |keys| ensures keys[i] != keys[j] {
          if i > 0 {
            assert keys[i] == keys[1..][i - 1] && keys[j] == keys[1..][j - 1];
          } else {
            assert keys[j] == keys[1..][j - 1];
          }
        }
        forall i | 0 <= i < |keys| ensures ValueError(keys[i], code, status, data, decodeVerse).None? {
          if i > 0 {
            assert keys[i] == keys[1..][i - 1];
          }
        }
      }
    }
  }

  /** A distinct run of keys whose values all decode only adds those keys to `seen`. */
  lemma {:induction false} ScanPrefix(pre: seq<Field>, rest: seq<Field>, seen: set<Field>, code: Result<nat, string>,
                                      status: Result<string, string>, data: JsonValue,
                                      decodeVerse: JsonValue -> Result<VerseData, string>)
    requires Distinct(pre)
    requires forall i :: 0 <= i < |pre| ==> pre[i] !in seen
    requires forall i :: 0 <= i < |pre| ==> ValueError(pre[i], code, status, data, decodeVerse).None?
    ensures ScanError(pre + rest, seen, code, status, data, decodeVerse)
      == ScanError(rest, seen + (set x | x in pre), code, status, data, decodeVerse)
    decreases |pre|
  {
    if pre == [] {
      assert pre + rest == rest;
      assert seen + (set x | x in pre) == seen;
    } else {
      assert (pre + rest)[1..] == pre[1..] + rest;
      ScanPrefix(pre[1..], rest, seen + {pre[0]}, code, status, data, decodeVerse);
      assert (pre + rest)[0] == pre[0];
      assert (set x | x in pre) == {pre[0]} + set x | x in pre[1..];
      assert seen + {pre[0]} + (set x | x in pre[1..]) == seen + (set x | x in pre);
    }
  }

  /** Decoding a `QuranApiResponse` (quran.rs:21-28) from an object whose known keys appear in the
      order `keys` (unknown keys are skipped): the walk's first error wins; after the walk, a
      field never met is "missing field", checked in declaration order. */
  function DecodeResponse(keys: seq<Field>, code: Result<nat, string>, status: Result<string, string>, data: JsonValue,
                          decodeVerse: JsonValue -> Result<VerseData, string>): Result<QuranApiResponse, string> {
    match ScanError(keys, {}, code, status, data, decodeVerse)
    case Some(e) => Err(e)
    case None =>
      if CodeField !in keys then Err("missing field `code`")
      else if StatusField !in keys then Err("missing field `status`")
      else if DataField !in keys then Err("missing field `data`")
      else
        ScanErrorNone(keys, {}, code, status, data, decodeVerse);
        assert ValueError(CodeField, code, status, data, decodeVerse).None?;
        assert ValueError(StatusField, code, status, data, decodeVerse).None?;
        assert ValueError(DataField, code, status, data, decodeVerse).None?;
        Ok(QuranApiResponse(code.value, status.value, DeserializeData(data, decodeVerse).value))
  }

  /** A response decodes exactly when each of the three keys appears once and each value decodes;
      then its `code`, `status` and `data` are those values, `data` being the dispatch's result. */
  lemma DecodeResponseOk(keys: seq<Field>, code: Result<nat, string>, status: Result<string, string>, data: JsonValue,
                         decodeVerse: JsonValue -> Result<VerseData, string>)
    ensures DecodeResponse(keys, code, status, data, decodeVerse).Ok? <==>
      && Distinct(keys) && CodeField in keys && StatusField in keys && DataField in keys
      && code.Ok? && status.Ok? && DeserializeData(data, decodeVerse).Ok?
    ensures DecodeResponse(keys, code, status, data, decodeVerse).Ok? ==>
      DecodeResponse(keys, code, status, data, decodeVerse).value
        == QuranApiResponse(code.value, status.value, DeserializeData(data, decodeVerse).value)
  {
    ScanErrorNone(keys, {}, code, status, data, decodeVerse);
    if && Distinct(keys) && CodeField in keys && StatusField in keys && DataField in keys
       && code.Ok? && status.Ok? && DeserializeData(data, decodeVerse).Ok? {
      forall i | 0 <= i < |keys| ensures ValueError(keys[i], code, status, data, decodeVerse).None? {
      }
    }
  }

  /** The error reported is that of the first key, in the object's order, whose value fails:
      whatever follows it, including other failing values, is never looked at. */
  lemma DecodeResponseFirstError(pre: seq<Field>, f: Field, post: seq<Field>, code: Result<nat, string>,
                                 status: Result<string, string>, data: JsonValue,
                                 decodeVerse: JsonValue -> Result<VerseData, string>)
    requires Distinct(pre + [f])
    requires forall i :: 0 <= i < |pre| ==> ValueError(pre[i], code, status, data, decodeVerse).None?
    requires ValueError(f, code, status, data, decodeVerse).Some?
    ensures DecodeResponse(pre + [f] + post, code, status, data, decodeVerse)
      == Err(ValueError(f, code, status, data, decodeVerse).value)
  {
    assert Distinct(pre) by {
      forall i, j | 0 <= i < j < |pre| ensures pre[i] != pre[j] {
        assert pre[i] == (pre + [f])[i] && pre[j] == (pre + [f])[j];
      }
    }
    ScanPrefix(pre, [f] + post, {}, code, status, data, decodeVerse);
    assert pre + [f] + post == pre + ([f] + post);
    assert f !in pre by {
      forall i | 0 <= i < |pre| ensures pre[i] != f {
        assert (pre + [f])[i] == pre[i] && (pre + [f])[|pre|] == f;
      }
    }
  }
}
