/** The key makers of core/store.go and core/voting.go: one flat key space shared by domain locks,
    records, record metadata, namehash entries, pending records and vote results. */
module Keys {
  import opened Bytes

  const SLASH: Byte := '/'
  const INDEX_KEY: Bytes := "_index"

  // ----- hexadecimal, as %x writes it -----

  function HexDigit(n: nat): (c: Byte)
    requires n < 16
    ensures c != SLASH
  {
    if n < 10 then ('0' as int + n) as char else ('a' as int + n - 10) as char
  }

  function Hex(data: Bytes): (text: Bytes)
    ensures |text| == 2 * |data|
  {
    if data == [] then []
    else [HexDigit(data[0] as int / 16), HexDigit(data[0] as int % 16)] + Hex(data[1..])
  }

  lemma {:induction false} HexInjective(a: Bytes, b: Bytes)
    requires Hex(a) == Hex(b)
    ensures a == b
  {
    if a != [] {
      assert |Hex(a)| == 2 * |a| && |Hex(b)| == 2 * |b|;
      var x, y := Hex(a), Hex(b);
      assert x[0] == y[0] && x[1] == y[1];
      assert x[2..] == Hex(a[1..]) && y[2..] == Hex(b[1..]);
      HexInjective(a[1..], b[1..]);
      assert a == [a[0]] + a[1..] && b == [b[0]] + b[1..];
    }
  }

  // ----- keys -----

  function LowerByte(c: Byte): (l: Byte)
    ensures l == SLASH <==> c == SLASH
  {
    if 'A' <= c <= 'Z' then (c as int + 32) as char else c
  }

  /** strings.ToLower on ASCII letters. */
  function ToLower(s: Bytes): (l: Bytes)
    ensures |l| == |s|
    ensures SLASH in l <==> SLASH in s
  {
    if s == "" then ""
    else [LowerByte(s[0])] + ToLower(s[1..])
  }

  /** One letter in its two cases, or one character. */
  predicate SameLetter(c: Byte, e: Byte) {
    || c == e
    || ('A' <= c <= 'Z' && 'a' <= e <= 'z' && e as int - 'a' as int == c as int - 'A' as int)
    || ('a' <= c <= 'z' && 'A' <= e <= 'Z' && c as int - 'a' as int == e as int - 'A' as int)
  }

  lemma SameLower(c: Byte, e: Byte)
    ensures LowerByte(c) == LowerByte(e) <==> SameLetter(c, e)
    ensures LowerByte(LowerByte(c)) == LowerByte(c)
  {
  }

  lemma {:induction false} LowerAt(s: Bytes, i: nat)
    requires i < |s|
    ensures ToLower(s)[i] == LowerByte(s[i])
  {
    if i > 0 {
      LowerAt(s[1..], i - 1);
    }
  }

  /** Two texts have one lower case exactly when they agree letter by letter, ignoring case: so the lock and
      the pending record of a domain are shared by exactly the spellings of its name. */
  lemma LowerAgreesExactlyWhen(s: Bytes, t: Bytes)
    ensures ToLower(s) == ToLower(t) <==> |s| == |t| && forall i :: 0 <= i < |s| ==> SameLetter(s[i], t[i])
  {
    forall i | 0 <= i < |s| && i < |t|
      ensures ToLower(s)[i] == ToLower(t)[i] <==> SameLetter(s[i], t[i])
    {
      LowerAt(s, i);
      LowerAt(t, i);
      SameLower(s[i], t[i]);
    }
  }

  lemma LowerIsLower(s: Bytes)
    ensures ToLower(ToLower(s)) == ToLower(s)
  {
    forall i | 0 <= i < |s|
      ensures ToLower(ToLower(s))[i] == ToLower(s)[i]
    {
      LowerAt(s, i);
      LowerAt(ToLower(s), i);
      SameLower(s[i], s[i]);
    }
  }

  /** The domains the protocol model covers: not the name of the index, and one segment of a path. */
  ghost predicate ValidDomain(d: Bytes) {
    d != "" && SLASH !in d && ToLower(d) == d && d != INDEX_KEY && d != "*" && d != "." && d != ".."
  }

  datatype Key =
    | Lock(domain: Bytes)
    | Record(domain: Bytes)
    | Metadata(domain: Bytes)
    | NamehashEntry(namehash: Word)
    | Pending(domain: Bytes)
    | Votes(domain: Bytes)

  function Render(k: Key): Bytes {
    match k
    case Lock(d) => "/altica/locks" + "/" + ToLower(d)
    case Record(d) => "/altica/records" + "/" + d
    case Metadata(d) => "/altica/records" + "/" + d + "/metadata"
    case NamehashEntry(h) => "/altica/records" + "/namehash/" + Hex(h)
    case Pending(d) => "/altica/pending/" + ToLower(d)
    case Votes(d) => "/altica/votes" + "/" + d
  }

  ghost predicate SlashFree(k: Key) {
    k.NamehashEntry? || SLASH !in k.domain
  }

  /** Two keys name the same entry: locks and pending records ignore case, the others do not. */
  ghost predicate SameEntry(k: Key, l: Key) {
    match (k, l)
    case (Lock(d), Lock(e)) => ToLower(d) == ToLower(e)
    case (Pending(d), Pending(e)) => ToLower(d) == ToLower(e)
    case _ => k == l
  }

  /** What follows "/altica/records/". */
  function RecordSuffix(k: Key): Bytes
    requires k.Record? || k.Metadata? || k.NamehashEntry?
  {
    match k
    case Record(d) => d
    case Metadata(d) => d + "/metadata"
    case NamehashEntry(h) => "namehash/" + Hex(h)
  }

  lemma RecordSuffixSlash(k: Key)
    requires (k.Record? || k.Metadata? || k.NamehashEntry?) && SlashFree(k)
    ensures SLASH in RecordSuffix(k) <==> !k.Record?
  {
    var s := RecordSuffix(k);
    match k
    case Record(d) =>
    case Metadata(d) => assert s[|d|] == SLASH;
    case NamehashEntry(h) => assert s[8] == SLASH;
  }

  /** The hash takes 64 digits and "metadata" takes 8, so the first slash cannot be in one place. */
  lemma MetadataIsNoNamehashEntry(d: Bytes, h: Word)
    requires SLASH !in d
    ensures RecordSuffix(Metadata(d)) != RecordSuffix(NamehashEntry(h))
  {
    var s, t := RecordSuffix(Metadata(d)), RecordSuffix(NamehashEntry(h));
    if |s| == |t| {
      assert |d| == 64 && s[8] == d[8] && t[8] == SLASH;
    }
  }

  lemma RecordSuffixInjective(k: Key, l: Key)
    requires k.Record? || k.Metadata? || k.NamehashEntry?
    requires l.Record? || l.Metadata? || l.NamehashEntry?
    requires SlashFree(k) && SlashFree(l) && RecordSuffix(k) == RecordSuffix(l)
    ensures k == l
  {
    RecordSuffixSlash(k);
    RecordSuffixSlash(l);
    match (k, l) {
      case (NamehashEntry(g), NamehashEntry(h)) =>
        assert RecordSuffix(k)[9..] == Hex(g) && RecordSuffix(l)[9..] == Hex(h);
        HexInjective(g, h);
      case (Metadata(d), Metadata(e)) =>
        assert RecordSuffix(k)[..|d|] == d && RecordSuffix(l)[..|e|] == e;
      case (Metadata(d), NamehashEntry(h)) => MetadataIsNoNamehashEntry(d, h);
      case (NamehashEntry(h), Metadata(d)) => MetadataIsNoNamehashEntry(d, h);
      case _ =>
    }
  }

  /** The path of a key's name space and what follows it. */
  function Namespace(k: Key): Bytes {
    match k
    case Lock(_) => "/altica/locks/"
    case Pending(_) => "/altica/pending/"
    case Votes(_) => "/altica/votes/"
    case _ => "/altica/records/"
  }

  function Suffix(k: Key): Bytes {
    match k
    case Lock(d) => ToLower(d)
    case Pending(d) => ToLower(d)
    case Votes(d) => d
    case _ => RecordSuffix(k)
  }

  lemma RenderSplits(k: Key)
    ensures Render(k) == Namespace(k) + Suffix(k)
  {
  }

  /** The ninth byte of a key tells its name space. */
  lemma KeyMark(k: Key)
    ensures |Render(k)| > 8 && Render(k)[1] == 'a' && Render(k)[8] == Namespace(k)[8]
  {
    RenderSplits(k);
    assert |Namespace(k)| > 8 && Namespace(k)[1] == 'a';
  }

  lemma SameMark(k: Key, l: Key)
    requires Namespace(k)[8] == Namespace(l)[8]
    ensures Namespace(k) == Namespace(l)
  {
  }

  lemma SameRest(n: Bytes, s: Bytes, t: Bytes)
    requires n + s == n + t
    ensures s == t
  {
    assert (n + s)[|n|..] == s && (n + t)[|n|..] == t;
  }

  lemma NamespacesDiffer(k: Key, l: Key)
    requires Render(k) == Render(l)
    ensures Namespace(k) == Namespace(l) && Suffix(k) == Suffix(l)
  {
    KeyMark(k);
    KeyMark(l);
    SameMark(k, l);
    RenderSplits(k);
    RenderSplits(l);
    SameRest(Namespace(k), Suffix(k), Suffix(l));
  }

  /** No two entries share a key, for every slash-free domain and every namehash: this is why the
      protocol model may keep one map per kind of entry. */
  lemma KeysNeverCollide(k: Key, l: Key)
    requires SlashFree(k) && SlashFree(l)
    ensures Render(k) == Render(l) <==> SameEntry(k, l)
  {
    if Render(k) == Render(l) {
      NamespacesDiffer(k, l);
      assert Namespace(k)[8] == Namespace(l)[8];
      if Namespace(k)[8] == 'r' {
        RecordSuffixInjective(k, l);
      }
    }
  }

  /** The namehash "domain" shows the slash-free condition is needed: with a slash two kinds meet. */
  lemma SlashesCollide(h: Word)
    ensures Render(Record("namehash/" + Hex(h))) == Render(NamehashEntry(h))
  {
    assert "/altica/records" + "/" + ("namehash/" + Hex(h)) == "/altica/records" + "/namehash/" + Hex(h);
  }
}
