/** Names of stored evidence: content-addressed object keys and run ids. */
module EvidenceKeys {
  import opened Prelude
  import opened Text

  function Shard(d: string): string { if |d| <= 2 then d else d[..2] }

  function ObjectKey(d: string): string { Join(["objects", "sha256", Shard(d), d], '/') }

  function Normalize(key: string): (r: string)
    ensures |r| == |key|
  {
    seq(|key|, i requires 0 <= i < |key| => if key[i] == '\\' then '/' else key[i])
  }

  /** The digest whose file a key denotes, or nothing when the key is refused. */
  function ResolveObjectKey(key: string): Option<string> {
    var parts := Split(Normalize(key), '/');
    if |parts| != 4 || parts[0] != "objects" || parts[1] != "sha256"
       || |parts[2]| != 2 || |parts[3]| != 64 then None
    else if exists i :: 0 <= i < |parts[3]| && !HexDigit(parts[3][i]) then None
    else if parts[2] != parts[3][..2] then None
    else Some(parts[3])
  }

  /** The resolver accepts exactly the keys the store issues for legal digests,
      up to the direction of the slashes. */
  lemma ResolveAcceptsIssuedKeys(key: string, d: string)
    ensures ResolveObjectKey(key) == Some(d) <==> LegalDigest(d) && Normalize(key) == ObjectKey(d)
  {
    var s := Normalize(key);
    var parts := Split(s, '/');
    JoinSplit(s, '/');
    if ResolveObjectKey(key) == Some(d) {
      assert parts == ["objects", "sha256", Shard(d), d];
    }
    if LegalDigest(d) && s == ObjectKey(d) {
      assert parts == ["objects", "sha256", Shard(d), d] by {
        HasNoSlash(d);
        SplitJoin(["objects", "sha256", Shard(d), d], '/');
      }
    }
  }

  lemma HasNoSlash(d: string)
    requires LegalDigest(d)
    ensures '/' !in d && '\\' !in d
  {}

  /** An issued key resolves to its own digest. */
  lemma IssuedKeysResolve(d: string)
    requires LegalDigest(d)
    ensures ResolveObjectKey(ObjectKey(d)) == Some(d)
  {
    var key := ObjectKey(d);
    HasNoSlash(d);
    JoinAvoids(["objects", "sha256", Shard(d), d], '/', '\\');
    assert Normalize(key) == key;
    ResolveAcceptsIssuedKeys(key, d);
  }

  /** Such a key is the fixed prefix, the first two digits, a slash and the 64 lowercase
      hexadecimal digits, with either slash for each slash. */
  lemma AcceptedKeysAreSpelledOut(key: string, d: string)
    ensures ResolveObjectKey(key) == Some(d) <==>
              && |d| == 64 && (forall c :: c in d ==> '0' <= c <= '9' || 'a' <= c <= 'f')
              && var issued := "objects/sha256/" + d[..2] + "/" + d;
              && |key| == |issued|
              && forall i :: 0 <= i < |key| ==> key[i] == issued[i] || (issued[i] == '/' && key[i] == '\\')
  {
    ResolveAcceptsIssuedKeys(key, d);
    if |d| == 64 {
      DigestsAreSpelledOut(d);
      IssuedKeyIsSpelledOut(d);
      var issued, s := "objects/sha256/" + d[..2] + "/" + d, Normalize(key);
      if forall c :: c in d ==> '0' <= c <= '9' || 'a' <= c <= 'f' {
        assert forall i :: 0 <= i < |issued| ==> issued[i] != '\\';
        assert s == issued <==> |s| == |issued| && forall i :: 0 <= i < |s| ==> s[i] == issued[i];
      }
    }
  }

  lemma DigestsAreSpelledOut(d: string)
    requires |d| == 64
    ensures LegalDigest(d) <==> forall c :: c in d ==> '0' <= c <= '9' || 'a' <= c <= 'f'
  {
    if LegalDigest(d) {
      forall c | c in d
        ensures HexDigit(c)
      {
        var i :| 0 <= i < |d| && d[i] == c;
      }
    }
    if forall c :: c in d ==> '0' <= c <= '9' || 'a' <= c <= 'f' {
      forall i | 0 <= i < |d|
        ensures HexDigit(d[i])
      {
        assert d[i] in d;
      }
    }
  }

  lemma IssuedKeyIsSpelledOut(d: string)
    requires |d| == 64
    ensures ObjectKey(d) == "objects/sha256/" + d[..2] + "/" + d
  {
    var parts := ["objects", "sha256", d[..2], d];
    assert parts[1..] == ["sha256", d[..2], d] && parts[1..][1..] == [d[..2], d] && parts[1..][1..][1..] == [d];
    assert Join([d[..2], d], '/') == d[..2] + ['/'] + d;
    assert Join(parts, '/') == "objects" + ['/'] + ("sha256" + ['/'] + (d[..2] + ['/'] + d));
    assert "objects" + ['/'] + ("sha256" + ['/'] + (d[..2] + ['/'] + d))
        == ("objects" + ['/'] + "sha256" + ['/']) + d[..2] + ['/'] + d;
    assert "objects" + ['/'] + "sha256" + ['/'] == "objects/sha256/";
  }

  lemma {:induction false} JoinAvoids(parts: seq<string>, sep: char, c: char)
    requires |parts| > 0 && c != sep && forall p :: p in parts ==> c !in p
    ensures c !in Join(parts, sep)
  {
    if |parts| > 1 {
      JoinAvoids(parts[1..], sep, c);
    }
  }

  /** A run id that cannot leave the manifest directory. */
  predicate SafeRunId(id: string) {
    id != "" && id != "." && id != ".." && '/' !in id && '\\' !in id && '\0' !in id
  }
}
