/** Keys and file names of cached blobs (blob_cache.rs). */
module BlobKeys {
  import opened Machine
  import opened Wrappers

  datatype Ns = Frag | Content | Card {
    function Tag(): string {
      match this
      case Frag => "frag"
      case Content => "content"
      case Card => "card"
    }
  }

  datatype Key = Key(ns: Ns, id: string, sub: u32)

  predicate IsHexDigit(c: char) { '0' <= c <= '9' || 'a' <= c <= 'f' || 'A' <= c <= 'F' }

  predicate IsLowerHex(c: char) { '0' <= c <= '9' || 'a' <= c <= 'f' }

  function Lower(c: char): char {
    if 'A' <= c <= 'Z' then (c as int + 32) as char else c
  }

  /** `to_ascii_lowercase` */
  function Lowercase(s: string): string { seq(|s|, i requires 0 <= i < |s| => Lower(s[i])) }

  /** `validated_key`: non-empty hex of at most 64 digits, in lower case. */
  function ValidatedKey(idHex: string): (r: Option<string>)
    ensures r.Some? <==> 0 < |idHex| <= 64 && forall i :: 0 <= i < |idHex| ==> IsHexDigit(idHex[i])
    ensures r.Some? ==> |r.value| == |idHex| && forall i :: 0 <= i < |idHex| ==> IsLowerHex(r.value[i])
    ensures r.Some? ==> forall i :: 0 <= i < |idHex| ==>
              || r.value[i] == idHex[i]
              || ('A' <= idHex[i] <= 'F' && r.value[i] as int - 'a' as int == idHex[i] as int - 'A' as int)
  {
    if 0 < |idHex| <= 64 && forall i :: 0 <= i < |idHex| ==> IsHexDigit(idHex[i])
    then Some(Lowercase(idHex)) else None
  }

  function Canonical(ns: Ns, idHex: string, sub: u32): (r: Option<Key>)
    ensures r.Some? <==> 0 < |idHex| <= 64 && forall i :: 0 <= i < |idHex| ==> IsHexDigit(idHex[i])
    ensures r.Some? ==> r.value.ns == ns && r.value.sub == sub && Some(r.value.id) == ValidatedKey(idHex)
  {
    match ValidatedKey(idHex)
    case Some(id) => Some(Key(ns, id, sub))
    case None => None
  }

  ghost predicate IsCanonical(k: Key) { ValidatedKey(k.id) == Some(k.id) }

  /** A canonical key is its own canonical form, so every spelling of an id shares one entry. */
  lemma CanonicalIsFixed(ns: Ns, idHex: string, sub: u32)
    requires Canonical(ns, idHex, sub).Some?
    ensures IsCanonical(Canonical(ns, idHex, sub).value)
  {
    var id := ValidatedKey(idHex).value;
    assert forall i :: 0 <= i < |id| ==> IsLowerHex(id[i]) && Lower(id[i]) == id[i];
    assert Lowercase(id) == id;
  }

  function Decimal(n: nat): (s: string)
    ensures |s| >= 1
  {
    if n < 10 then [Digit(n)] else Decimal(n / 10) + [Digit(n % 10)]
  }

  function Digit(d: nat): char
    requires d < 10
  {
    "0123456789"[d]
  }

  lemma {:induction false} DecimalInjective(m: nat, n: nat)
    requires Decimal(m) == Decimal(n)
    ensures m == n
  {
    var s, t := Decimal(m), Decimal(n);
    assert s[|s| - 1] == Digit(m % 10) && t[|t| - 1] == Digit(n % 10);
    assert |s| == 1 <==> m < 10;
    if m >= 10 {
      assert s[..|s| - 1] == Decimal(m / 10) && t[..|t| - 1] == Decimal(n / 10);
      DecimalInjective(m / 10, n / 10);
    }
  }

  /** `blob_filename` */
  function BlobFilename(k: Key): string { k.ns.Tag() + "_" + (k.id + "_" + (Decimal(k.sub) + ".blob")) }

  lemma {:induction false} FilenameExample()
    ensures BlobFilename(Key(Frag, "0a", 7)) == "frag_0a_7.blob"
    ensures BlobFilename(Key(Content, "0a", 10)) == "content_0a_10.blob"
    ensures BlobFilename(Key(Card, "0a", 12)) == "card_0a_12.blob"
  {
    assert Decimal(7) == "7" && Decimal(10) == "10" && Decimal(12) == "12";
  }

  /** The text before the first underscore is determined, and so is the text after it. */
  lemma SplitAtUnderscore(a: string, x: string, b: string, y: string)
    requires '_' !in a && '_' !in b && a + "_" + x == b + "_" + y
    ensures a == b && x == y
  {
    var s := a + "_" + x;
    assert s == b + "_" + y;
    assert forall i :: 0 <= i < |a| ==> s[i] == a[i] != '_';
    assert forall i :: 0 <= i < |b| ==> s[i] == b[i] != '_';
    assert s[|a|] == '_' && s[|b|] == '_';
    assert a == s[..|a|] == b && x == s[|a| + 1..] == y;
  }

  /** Two canonical keys share a file only if they are the same key. */
  lemma FilenameInjective(j: Key, k: Key)
    requires IsCanonical(j) && IsCanonical(k) && BlobFilename(j) == BlobFilename(k)
    ensures j == k
  {
    var jr, kr := Decimal(j.sub) + ".blob", Decimal(k.sub) + ".blob";
    SplitAtUnderscore(j.ns.Tag(), j.id + "_" + jr, k.ns.Tag(), k.id + "_" + kr);
    TagsDiffer(j.ns, k.ns);
    NoUnderscore(j);
    NoUnderscore(k);
    SplitAtUnderscore(j.id, jr, k.id, kr);
    CutSuffix(Decimal(j.sub), Decimal(k.sub), ".blob");
    DecimalInjective(j.sub, k.sub);
  }

  lemma TagsDiffer(m: Ns, n: Ns)
    ensures m.Tag() == n.Tag() ==> m == n
  {
    assert m.Tag() == n.Tag() ==> m.Tag()[1] == n.Tag()[1];
  }

  lemma CutSuffix(a: string, b: string, suffix: string)
    requires a + suffix == b + suffix
    ensures a == b
  {
    assert a == (a + suffix)[..|a|] && b == (b + suffix)[..|b|];
  }

  lemma NoUnderscore(k: Key)
    requires IsCanonical(k)
    ensures '_' !in k.id
  {
    var r := ValidatedKey(k.id);
    assert forall i :: 0 <= i < |k.id| ==> IsLowerHex(r.value[i]);
  }
}
