/**
  RTP header extensions (api/rtp_parameters.cc): looking one up by URI and removing duplicates, under the
  three ways of treating encrypted extensions.
 */
module HeaderExtensions {
  import opened Text

  datatype RtpExtension = RtpExtension(uri: string, id: int, encrypt: bool)

  datatype Filter = DiscardEncrypted | PreferEncrypted | RequireEncrypted

  // ----- what the loops compute ---------------------------------------------------------------------

  predicate Exists(s: seq<RtpExtension>, uri: string) { exists e :: e in s && e.uri == uri }

  predicate Is(e: RtpExtension, uri: string, encrypt: bool) { e.uri == uri && e.encrypt == encrypt }

  /** The first entry with this URI and encryption. */
  function First(s: seq<RtpExtension>, uri: string, encrypt: bool): Option<RtpExtension> {
    if s == [] then None
    else
      var f := First(s[..|s| - 1], uri, encrypt);
      if f.None? && Is(s[|s| - 1], uri, encrypt) then Some(s[|s| - 1]) else f
  }

  /** The last entry with this URI and encryption. */
  function Last(s: seq<RtpExtension>, uri: string, encrypt: bool): Option<RtpExtension> {
    if s == [] then None
    else if Is(s[|s| - 1], uri, encrypt) then Some(s[|s| - 1])
    else Last(s[..|s| - 1], uri, encrypt)
  }

  /** What a lookup finds. Preferring encrypted entries, it falls back on the last unencrypted one. */
  function Find(s: seq<RtpExtension>, uri: string, filter: Filter): Option<RtpExtension> {
    match filter
    case DiscardEncrypted => First(s, uri, false)
    case RequireEncrypted => First(s, uri, true)
    case PreferEncrypted => if First(s, uri, true).Some? then First(s, uri, true) else Last(s, uri, false)
  }

  /** `filtered` with the entries of `s` of that encryption whose URI is not there yet. */
  function Add(filtered: seq<RtpExtension>, s: seq<RtpExtension>, encrypt: bool): seq<RtpExtension> {
    if s == [] then filtered
    else
      var f := Add(filtered, s[..|s| - 1], encrypt);
      var e := s[|s| - 1];
      if e.encrypt != encrypt || Exists(f, e.uri) then f else f + [e]
  }

  function Encrypted(s: seq<RtpExtension>, filter: Filter): seq<RtpExtension> {
    if filter.DiscardEncrypted? then [] else Add([], s, true)
  }

  function Dedup(s: seq<RtpExtension>, filter: Filter): seq<RtpExtension> {
    if filter.RequireEncrypted? then Encrypted(s, filter) else Add(Encrypted(s, filter), s, false)
  }

  // ----- the loops --------------------------------------------------------------------------------------

  method HeaderExtensionWithUriExists(extensions: seq<RtpExtension>, uri: string) returns (r: bool)
    ensures r <==> exists e :: e in extensions && e.uri == uri
  {
    for i := 0 to |extensions|
      invariant forall e :: e in extensions[..i] ==> e.uri != uri
    {
      if extensions[i].uri == uri {
        return true;
      }
    }
    return false;
  }

  method FindHeaderExtensionByUri(extensions: seq<RtpExtension>, uri: string, filter: Filter)
    returns (r: Option<RtpExtension>)
    ensures r == Find(extensions, uri, filter)
  {
    var fallback: Option<RtpExtension> := None;
    for i := 0 to |extensions|
      invariant !filter.DiscardEncrypted? ==> First(extensions[..i], uri, true).None?
      invariant filter.DiscardEncrypted? ==> First(extensions[..i], uri, false).None?
      invariant fallback == if filter.PreferEncrypted? then Last(extensions[..i], uri, false) else None
    {
      var e := extensions[i];
      assert extensions[..i + 1][..i] == extensions[..i];
      if e.uri == uri {
        match filter
        case DiscardEncrypted =>
          if !e.encrypt {
            FirstStays(extensions, i + 1, uri, false);
            return Some(e);
          }
        case PreferEncrypted =>
          if e.encrypt {
            FirstStays(extensions, i + 1, uri, true);
            return Some(e);
          } else {
            fallback := Some(e);
          }
        case RequireEncrypted =>
          if e.encrypt {
            FirstStays(extensions, i + 1, uri, true);
            return Some(e);
          }
      }
    }
    assert extensions[..|extensions|] == extensions;
    return fallback;
  }

  method DeduplicateHeaderExtensions(extensions: seq<RtpExtension>, filter: Filter)
    returns (filtered: seq<RtpExtension>)
    ensures filtered == Dedup(extensions, filter)
  {
    filtered := [];
    if filter != DiscardEncrypted {
      filtered := AddMissing(filtered, extensions, true);
    }
    if filter != RequireEncrypted {
      filtered := AddMissing(filtered, extensions, false);
    }
  }

  /** Either of the two loops. */
  method AddMissing(given: seq<RtpExtension>, extensions: seq<RtpExtension>, encrypt: bool)
    returns (filtered: seq<RtpExtension>)
    ensures filtered == Add(given, extensions, encrypt)
  {
    filtered := given;
    for i := 0 to |extensions|
      invariant filtered == Add(given, extensions[..i], encrypt)
    {
      var e := extensions[i];
      assert extensions[..i + 1][..i] == extensions[..i];
      if e.encrypt != encrypt {
        continue;
      }
      var there := HeaderExtensionWithUriExists(filtered, e.uri);
      if !there {
        filtered := filtered + [e];
      }
    }
    assert extensions[..|extensions|] == extensions;
  }

  /** What was found in a part is found in the whole. */
  lemma {:induction false} FirstStays(s: seq<RtpExtension>, i: nat, uri: string, encrypt: bool)
    requires i <= |s| && First(s[..i], uri, encrypt).Some?
    ensures First(s, uri, encrypt) == First(s[..i], uri, encrypt)
  {
    if i == |s| {
      assert s[..i] == s;
    } else {
      assert s[..|s| - 1][..i] == s[..i];
      FirstStays(s[..|s| - 1], i, uri, encrypt);
    }
  }

  // ----- what a lookup finds ----------------------------------------------------------------------------

  predicate FirstAt(s: seq<RtpExtension>, uri: string, encrypt: bool, k: nat) {
    && k < |s| && s[k].uri == uri && s[k].encrypt == encrypt
    && forall i :: 0 <= i < k ==> s[i].uri != uri || s[i].encrypt != encrypt
  }

  predicate LastAt(s: seq<RtpExtension>, uri: string, encrypt: bool, k: nat) {
    && k < |s| && s[k].uri == uri && s[k].encrypt == encrypt
    && forall i :: k < i < |s| ==> s[i].uri != uri || s[i].encrypt != encrypt
  }

  lemma {:induction false} FirstIs(s: seq<RtpExtension>, uri: string, encrypt: bool, k: nat)
    requires FirstAt(s, uri, encrypt, k)
    ensures First(s, uri, encrypt) == Some(s[k])
  {
    var init := s[..|s| - 1];
    if k == |s| - 1 {
      FirstIsOne(init, uri, encrypt);
    } else {
      FirstIs(init, uri, encrypt, k);
    }
  }

  lemma {:induction false} LastIs(s: seq<RtpExtension>, uri: string, encrypt: bool, k: nat)
    requires LastAt(s, uri, encrypt, k)
    ensures Last(s, uri, encrypt) == Some(s[k])
  {
    if k == |s| - 1 {
    } else {
      LastIs(s[..|s| - 1], uri, encrypt, k);
    }
  }

  lemma {:induction false} NoneIsNone(s: seq<RtpExtension>, uri: string, encrypt: bool)
    requires forall i :: 0 <= i < |s| ==> s[i].uri != uri || s[i].encrypt != encrypt
    ensures First(s, uri, encrypt) == None && Last(s, uri, encrypt) == None
  {
    if s == [] {
    } else {
      NoneIsNone(s[..|s| - 1], uri, encrypt);
    }
  }

  predicate Has(s: seq<RtpExtension>, uri: string, encrypt: bool) {
    exists i :: 0 <= i < |s| && s[i].uri == uri && s[i].encrypt == encrypt
  }

  /** Discarding encrypted entries, a lookup finds the first unencrypted one; requiring them, the first
      encrypted one; preferring them, the first encrypted one, or the last unencrypted one if there is none. */
  lemma FindIs(s: seq<RtpExtension>, uri: string, k: nat)
    ensures FirstAt(s, uri, false, k) ==> Find(s, uri, DiscardEncrypted) == Some(s[k])
    ensures FirstAt(s, uri, true, k) ==> Find(s, uri, RequireEncrypted) == Find(s, uri, PreferEncrypted) == Some(s[k])
    ensures !Has(s, uri, true) && LastAt(s, uri, false, k) ==> Find(s, uri, PreferEncrypted) == Some(s[k])
    ensures !Has(s, uri, false) ==> Find(s, uri, DiscardEncrypted) == None
    ensures !Has(s, uri, true) ==> Find(s, uri, RequireEncrypted) == None
    ensures !Has(s, uri, true) && !Has(s, uri, false) ==> Find(s, uri, PreferEncrypted) == None
  {
    if FirstAt(s, uri, false, k) { FirstIs(s, uri, false, k); }
    if FirstAt(s, uri, true, k) { FirstIs(s, uri, true, k); }
    if LastAt(s, uri, false, k) { LastIs(s, uri, false, k); }
    if !Has(s, uri, false) { NoneIsNone(s, uri, false); }
    if !Has(s, uri, true) { NoneIsNone(s, uri, true); }
  }

  // ----- one entry for each URI -----------------------------------------------------------------------

  predicate Unique(s: seq<RtpExtension>) {
    forall i, j :: 0 <= i < j < |s| ==> s[i].uri != s[j].uri
  }

  /** Which entries the filter lets through. */
  predicate Admits(filter: Filter, e: RtpExtension) {
    match filter
    case DiscardEncrypted => !e.encrypt
    case PreferEncrypted => true
    case RequireEncrypted => e.encrypt
  }

  /** The entry a URI should be left with: its first encrypted one if the filter lets that through, else
      its first unencrypted one if the filter lets that through. */
  function Chosen(s: seq<RtpExtension>, uri: string, filter: Filter): Option<RtpExtension> {
    if !filter.DiscardEncrypted? && First(s, uri, true).Some? then First(s, uri, true)
    else if !filter.RequireEncrypted? then First(s, uri, false)
    else None
  }

  lemma {:induction false} FirstIsOne(s: seq<RtpExtension>, uri: string, encrypt: bool)
    ensures First(s, uri, encrypt).Some? ==>
      First(s, uri, encrypt).value in s && Is(First(s, uri, encrypt).value, uri, encrypt)
    ensures First(s, uri, encrypt).None? ==> forall e :: e in s ==> !Is(e, uri, encrypt)
  {
    if s == [] {
    } else {
      FirstIsOne(s[..|s| - 1], uri, encrypt);
      assert s == s[..|s| - 1] + [s[|s| - 1]];
    }
  }

  /** One of the two loops adds exactly the first matching entry of every URI that was missing. */
  lemma {:induction false} AddHolds(f: seq<RtpExtension>, s: seq<RtpExtension>, encrypt: bool, e: RtpExtension)
    ensures e in Add(f, s, encrypt) <==> e in f || (!Exists(f, e.uri) && First(s, e.uri, encrypt) == Some(e))
  {
    if s == [] {
    } else {
      var init, last := s[..|s| - 1], s[|s| - 1];
      AddHolds(f, init, encrypt, e);
      if last.encrypt == encrypt {
        AddExists(f, init, encrypt, last.uri);
      }
    }
  }

  lemma {:induction false} AddExists(f: seq<RtpExtension>, s: seq<RtpExtension>, encrypt: bool, uri: string)
    ensures Exists(Add(f, s, encrypt), uri) <==> Exists(f, uri) || First(s, uri, encrypt).Some?
  {
    if s == [] {
    } else {
      AddExists(f, s[..|s| - 1], encrypt, uri);
      var before := Add(f, s[..|s| - 1], encrypt);
      assert forall e :: e in before + [s[|s| - 1]] <==> e in before || e == s[|s| - 1];
      assert s[|s| - 1] in before + [s[|s| - 1]];
    }
  }

  lemma {:induction false} AddUnique(f: seq<RtpExtension>, s: seq<RtpExtension>, encrypt: bool)
    requires Unique(f)
    ensures Unique(Add(f, s, encrypt))
  {
    if s == [] {
    } else {
      AddUnique(f, s[..|s| - 1], encrypt);
    }
  }

  /** The result has one entry for each URI that has an admissible entry, and it is the chosen one. */
  lemma DedupHolds(s: seq<RtpExtension>, filter: Filter, e: RtpExtension)
    ensures Unique(Dedup(s, filter))
    ensures e in Dedup(s, filter) <==> Chosen(s, e.uri, filter) == Some(e)
  {
    var first := Encrypted(s, filter);
    AddUnique([], s, true);
    AddUnique(first, s, false);
    AddHolds([], s, true, e);
    AddExists([], s, true, e.uri);
    AddHolds(first, s, false, e);
    FirstIsOne(s, e.uri, true);
    FirstIsOne(s, e.uri, false);
  }

  /** No URI is lost: it stays exactly when some entry of it is admissible; nothing is invented. */
  lemma DedupCovers(s: seq<RtpExtension>, filter: Filter, uri: string)
    ensures Exists(Dedup(s, filter), uri) <==> exists e :: e in s && e.uri == uri && Admits(filter, e)
    ensures forall e :: e in Dedup(s, filter) ==> e in s && Admits(filter, e)
  {
    forall e | e in Dedup(s, filter) ensures e in s && Admits(filter, e) {
      DedupHolds(s, filter, e);
      FirstIsOne(s, e.uri, true);
      FirstIsOne(s, e.uri, false);
    }
    FirstIsOne(s, uri, true);
    FirstIsOne(s, uri, false);
    if Chosen(s, uri, filter).Some? {
      DedupHolds(s, filter, Chosen(s, uri, filter).value);
    }
  }

  // ----- idempotence --------------------------------------------------------------------------------------

  lemma {:induction false} AddSplit(f: seq<RtpExtension>, a: seq<RtpExtension>, b: seq<RtpExtension>, encrypt: bool)
    ensures Add(f, a + b, encrypt) == Add(Add(f, a, encrypt), b, encrypt)
  {
    if b == [] {
      assert a + b == a;
    } else {
      assert (a + b)[..|a + b| - 1] == a + b[..|b| - 1];
      AddSplit(f, a, b[..|b| - 1], encrypt);
    }
  }

  predicate All(s: seq<RtpExtension>, encrypt: bool) { forall e :: e in s ==> e.encrypt == encrypt }

  lemma {:induction false} AddNone(f: seq<RtpExtension>, s: seq<RtpExtension>, encrypt: bool)
    requires All(s, !encrypt)
    ensures Add(f, s, encrypt) == f
  {
    if s == [] {
    } else {
      AddNone(f, s[..|s| - 1], encrypt);
    }
  }

  lemma {:induction false} AddAll(f: seq<RtpExtension>, s: seq<RtpExtension>, encrypt: bool)
    requires All(s, encrypt) && Unique(f + s)
    ensures Add(f, s, encrypt) == f + s
  {
    if s == [] {
      assert f + s == f;
    } else {
      var init, last := s[..|s| - 1], s[|s| - 1];
      assert f + s == f + init + [last];
      assert forall i :: 0 <= i < |f + init| ==> (f + s)[i] == (f + init)[i];
      AddAll(f, init, encrypt);
      assert (f + s)[|f + init|] == last;
    }
  }

  /** What a loop adds comes after what was there. */
  lemma {:induction false} AddExtends(f: seq<RtpExtension>, s: seq<RtpExtension>, encrypt: bool)
    returns (more: seq<RtpExtension>)
    ensures Add(f, s, encrypt) == f + more && All(more, encrypt)
  {
    more := [];
    if s == [] {
    } else {
      more := AddExtends(f, s[..|s| - 1], encrypt);
      if Add(f, s, encrypt) != Add(f, s[..|s| - 1], encrypt) {
        more := more + [s[|s| - 1]];
      }
    }
  }

  lemma DedupTwice(s: seq<RtpExtension>, filter: Filter)
    ensures Dedup(Dedup(s, filter), filter) == Dedup(s, filter)
  {
    var a := Encrypted(s, filter);
    var a' := AddExtends([], s, true);
    assert All(a, true);
    AddUnique([], s, true);
    if filter.RequireEncrypted? {
      assert [] + a == a;
      AddAll([], a, true);
    } else {
      var b := AddExtends(a, s, false);
      AddUnique(a, s, false);
      PartsTwice(a, b);
      assert filter.DiscardEncrypted? ==> a == [] && a + b == b;
    }
  }

  lemma PartsTwice(a: seq<RtpExtension>, b: seq<RtpExtension>)
    requires All(a, true) && All(b, false) && Unique(a + b)
    ensures Add([], a + b, true) == a && Add(a, a + b, false) == a + b
  {
    assert forall i :: 0 <= i < |a| ==> (a + b)[i] == a[i];
    assert [] + a == a;
    AddSplit([], a, b, true);
    AddAll([], a, true);
    AddNone(a, b, true);
    AddSplit(a, a, b, false);
    AddNone(a, a, false);
    AddAll(a, b, false);
  }

  // ----- lookups before and after -----------------------------------------------------------------------

  /** With one entry for the URI, all ways of looking agree. */
  lemma {:induction false} UniqueFirst(s: seq<RtpExtension>, uri: string, encrypt: bool)
    requires Unique(s)
    ensures First(s, uri, encrypt) == Last(s, uri, encrypt)
    ensures First(s, uri, encrypt).Some? ==> First(s, uri, !encrypt).None?
  {
    FirstIsOne(s, uri, encrypt);
    FirstIsOne(s, uri, !encrypt);
    if s == [] {
    } else {
      var init, last := s[..|s| - 1], s[|s| - 1];
      UniqueFirst(init, uri, encrypt);
      FirstIsOne(init, uri, encrypt);
    }
  }

  /** In the result every lookup finds the chosen entry. */
  lemma FindInDedup(s: seq<RtpExtension>, uri: string, filter: Filter)
    ensures Find(Dedup(s, filter), uri, filter) == Chosen(s, uri, filter)
  {
    var d := Dedup(s, filter);
    var c, f := Chosen(s, uri, filter), Find(d, uri, filter);
    FirstIsOne(d, uri, true);
    FirstIsOne(d, uri, false);
    FirstIsOne(s, uri, true);
    FirstIsOne(s, uri, false);
    if c.Some? {
      DedupHolds(s, filter, c.value);
      UniqueFirst(d, uri, false);
      ChosenAlone(d, c.value);
    } else if f.Some? {
      DedupHolds(s, filter, f.value);
      UniqueFirst(d, uri, false);
    } else {
    }
  }

  lemma ChosenAlone(d: seq<RtpExtension>, e: RtpExtension)
    requires Unique(d) && e in d
    ensures First(d, e.uri, e.encrypt) == Some(e) && First(d, e.uri, !e.encrypt).None?
  {
    FirstIsOne(d, e.uri, e.encrypt);
    FirstIsOne(d, e.uri, !e.encrypt);
  }

  /** Removing duplicates changes no lookup that discards or requires encrypted entries. When encrypted
      ones are preferred, the lookup is unchanged exactly if the URI has an encrypted entry or its first
      and last unencrypted entries are the same: the lookup takes the last, the removal keeps the first. */
  lemma FindUnchangedIff(s: seq<RtpExtension>, uri: string, filter: Filter)
    ensures Find(Dedup(s, filter), uri, filter) == Find(s, uri, filter) <==>
      !filter.PreferEncrypted? || First(s, uri, true).Some? || First(s, uri, false) == Last(s, uri, false)
  {
    FindInDedup(s, uri, filter);
  }

  /** Preferring encrypted entries, two different unencrypted entries of a URI without encrypted ones. */
  lemma FindChanges()
    ensures
      var s := [RtpExtension("u", 1, false), RtpExtension("u", 2, false)];
      && Find(s, "u", PreferEncrypted) == Some(s[1])
      && Find(Dedup(s, PreferEncrypted), "u", PreferEncrypted) == Some(s[0])
  {
    var s := [RtpExtension("u", 1, false), RtpExtension("u", 2, false)];
    FindInDedup(s, "u", PreferEncrypted);
    assert s[..1] == [s[0]] && s[..1][..0] == [];
    assert First(s[..1], "u", true).None? && First(s[..1], "u", false) == Some(s[0]);
    assert First(s, "u", true).None? && First(s, "u", false) == Some(s[0]);
  }

  /** In particular it is unchanged when no URI has two unencrypted entries. */
  lemma FindUnchangedOnSingles(s: seq<RtpExtension>, uri: string, filter: Filter)
    requires forall i, j :: 0 <= i < j < |s| && !s[i].encrypt && !s[j].encrypt ==> s[i].uri != s[j].uri
    ensures Find(Dedup(s, filter), uri, filter) == Find(s, uri, filter)
  {
    FindUnchangedIff(s, uri, filter);
    SingleFirst(s, uri);
  }

  lemma {:induction false} SingleFirst(s: seq<RtpExtension>, uri: string)
    requires forall i, j :: 0 <= i < j < |s| && !s[i].encrypt && !s[j].encrypt ==> s[i].uri != s[j].uri
    ensures First(s, uri, false) == Last(s, uri, false)
  {
    if s == [] {
    } else {
      SingleFirst(s[..|s| - 1], uri);
      FirstIsOne(s[..|s| - 1], uri, false);
    }
  }
}
