/** The field validators of the bot and its phone/WhatsApp normaliser. Each regular expression of
    the bot is modelled by its Python `re.match` semantics; `$` without MULTILINE succeeds at the
    end of the string and also just before a newline that ends it. Character classes are ASCII
    except the Cyrillic ranges the pattern names. */
module Validators {
  import opened Strings

  /** The three place categories offered as buttons. */
  const PLACE_TYPES: seq<string> := ["Places to eat", "Adventures", "Services"]

  const MAPS_PREFIX: string := "https://maps.app.goo.gl/"

  /** The calling code of Costa Rica, prefixed to local numbers. */
  const COUNTRY_CODE: string := "506"

  predicate IsAsciiLetter(c: char) {
    'a' <= c <= 'z' || 'A' <= c <= 'Z'
  }

  /** The ranges а-я and А-Я: U+0430..U+044F and U+0410..U+042F (ё and Ё lie outside). */
  predicate IsCyrillicLetter(c: char) {
    'а' <= c <= 'я' || 'А' <= c <= 'Я'
  }

  /** `\s` of a str pattern, on ASCII: space, \t \n \v \f \r, and the separators U+001C..U+001F. */
  predicate IsSpace(c: char) {
    c == ' ' || '\t' <= c <= '\r' || '\U{1C}' <= c <= '\U{1F}'
  }

  /** The class `[a-zA-Zа-яА-Я\s\']`. */
  predicate IsNameChar(c: char) {
    IsAsciiLetter(c) || IsCyrillicLetter(c) || IsSpace(c) || c == '\''
  }

  /** The class `[a-zA-Z0-9]`. */
  predicate IsAsciiAlnum(c: char) {
    IsAsciiLetter(c) || IsDigit(c)
  }

  /** Python's `$` at position k of s. */
  predicate EndAt(s: string, k: nat) {
    k == |s| || (k + 1 == |s| && s[k] == '\n')
  }

  /** `re.match(r"[C]+$", s)` for the class C: a non-empty run of class characters from the
      start, followed by `$`. */
  predicate RunToEnd(cls: char -> bool, s: string) {
    exists k: nat :: 1 <= k <= |s| && EndAt(s, k) && forall i :: 0 <= i < k ==> cls(s[i])
  }

  /** validate_name: `re.match(r"^[a-zA-Zа-яА-Я\s\']+$", name)`. */
  predicate ValidName(s: string) {
    RunToEnd(IsNameChar, s)
  }

  /** A name is valid iff it is non-empty and made only of letters, whitespace and apostrophes. */
  lemma ValidNameIff(s: string)
    ensures ValidName(s) <==> |s| > 0 && forall i :: 0 <= i < |s| ==> IsNameChar(s[i])
  {
    if |s| > 0 && forall i :: 0 <= i < |s| ==> IsNameChar(s[i]) {
      assert EndAt(s, |s|);
    }
    if ValidName(s) {
      var k: nat :| 1 <= k <= |s| && EndAt(s, k) && forall i :: 0 <= i < k ==> IsNameChar(s[i]);
      if k < |s| {
        assert s[k] == '\n' && IsNameChar(s[k]);
      }
    }
  }

  /** The information separators count as whitespace, as they do for `\s`. */
  lemma SeparatorInName()
    ensures ValidName("a\U{1C}b")
  {
    ValidNameIff("a\U{1C}b");
  }

  /** validate_type: membership in the three categories. */
  predicate ValidType(s: string) {
    s in PLACE_TYPES
  }

  /** validate_google_maps: `re.match(r"^https:\/\/maps\.app\.goo\.gl\/[a-zA-Z0-9]+$", url)`. */
  predicate ValidGoogleMaps(s: string) {
    |s| >= |MAPS_PREFIX| && s[..|MAPS_PREFIX|] == MAPS_PREFIX && RunToEnd(IsAsciiAlnum, s[|MAPS_PREFIX|..])
  }

  predicate IsShortLinkId(id: string) {
    |id| > 0 && forall i :: 0 <= i < |id| ==> IsAsciiAlnum(id[i])
  }

  /** A short link is accepted exactly when it is the prefix followed by one or more ASCII
      letters and digits, optionally followed by one final newline. */
  lemma {:induction false} ValidGoogleMapsIff(s: string)
    ensures ValidGoogleMaps(s) <==>
      |s| > |MAPS_PREFIX| && s[..|MAPS_PREFIX|] == MAPS_PREFIX &&
      (IsShortLinkId(s[|MAPS_PREFIX|..]) || (s[|s| - 1] == '\n' && IsShortLinkId(s[|MAPS_PREFIX|..|s| - 1])))
  {
    var p := |MAPS_PREFIX|;
    if |s| > p && s[..p] == MAPS_PREFIX {
      var rest := s[p..];
      if IsShortLinkId(rest) {
        assert EndAt(rest, |rest|);
      } else if s[|s| - 1] == '\n' && IsShortLinkId(s[p..|s| - 1]) {
        assert rest[..|rest| - 1] == s[p..|s| - 1];
        assert EndAt(rest, |rest| - 1);
      }
      if ValidGoogleMaps(s) {
        var k: nat :| 1 <= k <= |rest| && EndAt(rest, k) && forall i :: 0 <= i < k ==> IsAsciiAlnum(rest[i]);
        if k < |rest| {
          assert rest[..k] == s[p..|s| - 1];
        }
      }
    }
  }

  /** The links the bot asks for are accepted: the prefix and an identifier, with no trailing newline. */
  lemma ShortLinkAccepted(id: string)
    requires '\n' !in id
    ensures ValidGoogleMaps(MAPS_PREFIX + id) <==> IsShortLinkId(id)
  {
    var s := MAPS_PREFIX + id;
    assert s[..|MAPS_PREFIX|] == MAPS_PREFIX && s[|MAPS_PREFIX|..] == id;
    ValidGoogleMapsIff(s);
    if |id| > 0 {
      assert s[|s| - 1] == id[|id| - 1];
    }
  }

  /** An item of a Telegram photo list; `hasFileId` is false for an object without a file_id attribute. */
  datatype Media = Media(hasFileId: bool)

  /** The value handed to validate_photos: a Python list, or any other kind of object. */
  datatype PhotoArg = PhotoList(items: seq<Media>) | NotAList

  /** validate_photos: a list whose every item has a file_id. */
  predicate ValidPhotos(p: PhotoArg) {
    p.PhotoList? && forall i :: 0 <= i < |p.items| ==> p.items[i].hasFileId
  }

  /** validate_photos accepts the empty list (all() of nothing is True) and rejects every
      object that is not a list. */
  lemma ValidPhotosEdges(p: PhotoArg)
    ensures p == PhotoList([]) ==> ValidPhotos(p)
    ensures p.NotAList? ==> !ValidPhotos(p)
  {
  }

  /** `"".join(filter(str.isdigit, s))`, with ASCII digits. */
  function Digits(s: string): (d: string)
    ensures |d| <= |s|
    ensures forall i :: 0 <= i < |d| ==> IsDigit(d[i])
  {
    if s == [] then []
    else (if IsDigit(s[0]) then [s[0]] else []) + Digits(s[1..])
  }

  lemma {:induction false} DigitsOfDigits(s: string)
    requires forall i :: 0 <= i < |s| ==> IsDigit(s[i])
    ensures Digits(s) == s
  {
    if s != [] {
      DigitsOfDigits(s[1..]);
    }
  }

  lemma {:induction false} DigitsAppend(a: string, b: string)
    ensures Digits(a + b) == Digits(a) + Digits(b)
  {
    if a == [] {
      assert a + b == b;
    } else {
      assert (a + b)[1..] == a[1..] + b;
      DigitsAppend(a[1..], b);
    }
  }

  /** The phone rewrite of handle_new_value: keep the digits; eight digits are a local number
      and get "+506"; eleven digits starting with 506 get "+"; anything else stays bare digits. */
  function NormalizePhone(s: string): string {
    var d := Digits(s);
    if |d| == 8 then "+" + (COUNTRY_CODE + d)
    else if |d| == 11 && d[..3] == COUNTRY_CODE then "+" + d
    else d
  }

  lemma DigitsSkipNonDigit(c: char, s: string)
    requires !IsDigit(c)
    ensures Digits([c] + s) == Digits(s)
  {
    assert ([c] + s)[1..] == s;
  }

  /** A '+' before a string of digits is dropped by the digit filter. */
  lemma DigitsAfterPlus(t: string)
    requires forall i :: 0 <= i < |t| ==> IsDigit(t[i])
    ensures Digits(['+'] + t) == t
  {
    DigitsOfDigits(t);
    DigitsSkipNonDigit('+', t);
  }

  lemma CountryCodeDigits(d: string)
    requires forall i :: 0 <= i < |d| ==> IsDigit(d[i])
    ensures forall i :: 0 <= i < |COUNTRY_CODE + d| ==> IsDigit((COUNTRY_CODE + d)[i])
  {
  }

  /** The rewrite keeps every digit of the input, adding the country code only to an
      eight-digit number. */
  lemma NormalizePhoneDigits(s: string)
    ensures Digits(NormalizePhone(s)) ==
      (if |Digits(s)| == 8 then COUNTRY_CODE + Digits(s) else Digits(s))
  {
    var d := Digits(s);
    DigitsOfDigits(d);
    if |d| == 8 {
      CountryCodeDigits(d);
      DigitsAfterPlus(COUNTRY_CODE + d);
    } else if |d| == 11 && d[..3] == COUNTRY_CODE {
      DigitsAfterPlus(d);
    }
  }

  /** The rewrite starts with '+' exactly for eight-digit local numbers and for eleven-digit
      numbers that already start with the country code. */
  lemma NormalizePhonePlus(s: string)
    ensures var r := NormalizePhone(s); (|r| > 0 && r[0] == '+') <==>
      (|Digits(s)| == 8 || (|Digits(s)| == 11 && Digits(s)[..3] == COUNTRY_CODE))
  {
    var d := Digits(s);
    if |d| > 0 {
      assert IsDigit(d[0]);
    }
  }

  /** Normalising an already normalised number changes nothing. */
  lemma NormalizePhoneIdempotent(s: string)
    ensures NormalizePhone(NormalizePhone(s)) == NormalizePhone(s)
  {
    NormalizePhoneDigits(s);
    var d := Digits(s);
    if |d| == 8 {
      assert (COUNTRY_CODE + d)[..3] == COUNTRY_CODE;
    }
  }

  /** The eight-digit local number of the scenario gets the country code. */
  lemma NormalizeLocalNumber()
    ensures NormalizePhone("88887777") == "+50688887777"
  {
  }

  /** A number of any other length is passed through as its bare digits. */
  lemma NormalizeShortNumber()
    ensures NormalizePhone("12-34") == "1234"
  {
  }
}
