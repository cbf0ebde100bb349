/**
 * The user-picture helpers of ljdump.py: the keyword-to-URL map built after
 * login (ljdump.py:182-184), the content-type table `MimeExtensions`
 * (ljdump.py:41-45, 356) and the picture file names (ljdump.py:357-364).
 */
module Userpics {
  import opened Wrappers

  // ---------------------------------------------------------------------
  // The keyword map

  /** `dict(zip(keys, values))` for lists of the same length: a later key overwrites an earlier one. */
  function ZipMap(keys: seq<string>, values: seq<string>): map<string, string>
    requires |keys| == |values|
    decreases |keys|
  {
    if keys == [] then map[]
    else ZipMap(keys[..|keys| - 1], values[..|values| - 1])[keys[|keys| - 1] := values[|values| - 1]]
  }

  /**
   * A key is in the zipped map exactly when it is in the list, and it holds
   * the value paired with its last occurrence.
   */
  lemma {:induction false} ZipMapLastWins(keys: seq<string>, values: seq<string>, k: string)
    requires |keys| == |values|
    ensures k in ZipMap(keys, values) <==> k in keys
    ensures forall i :: 0 <= i < |keys| && keys[i] == k && (forall j :: i < j < |keys| ==> keys[j] != k)
                        ==> k in ZipMap(keys, values) && ZipMap(keys, values)[k] == values[i]
    decreases |keys|
  {
    if keys != [] {
      var n := |keys| - 1;
      ZipMapLastWins(keys[..n], values[..n], k);
      assert k in keys <==> k in keys[..n] || keys[n] == k by {
        assert keys == keys[..n] + [keys[n]];
      }
      forall i | 0 <= i < |keys| && keys[i] == k && (forall j :: i < j < |keys| ==> keys[j] != k)
        ensures k in ZipMap(keys, values) && ZipMap(keys, values)[k] == values[i]
      {
        if i < n {
          assert keys[..n][i] == k;
          assert forall j :: i < j < |keys[..n]| ==> keys[..n][j] != k;
        }
      }
    }
  }

  /**
   * The userpic map of ljdump.py:182-184: keywords zipped with URLs (`zip`
   * stops at the shorter list), then the default picture under `*` when the
   * server gave one (an empty URL is false in Python and adds nothing).
   */
  function UserpicMap(pickws: seq<string>, pickwurls: seq<string>, defaultpicurl: string): (m: map<string, string>)
  {
    var n := if |pickws| < |pickwurls| then |pickws| else |pickwurls|;
    var pics := ZipMap(pickws[..n], pickwurls[..n]);
    if defaultpicurl != "" then pics["*" := defaultpicurl] else pics
  }

  /** The keys of the userpic map, and what `*` holds. */
  lemma UserpicMapKeys(pickws: seq<string>, pickwurls: seq<string>, defaultpicurl: string, k: string)
    ensures var n := if |pickws| < |pickwurls| then |pickws| else |pickwurls|;
            k in UserpicMap(pickws, pickwurls, defaultpicurl)
            <==> k in pickws[..n] || (k == "*" && defaultpicurl != "")
    ensures defaultpicurl != "" ==> UserpicMap(pickws, pickwurls, defaultpicurl)["*"] == defaultpicurl
  {
    var n := if |pickws| < |pickwurls| then |pickws| else |pickwurls|;
    ZipMapLastWins(pickws[..n], pickwurls[..n], k);
  }

  /**
   * A keyword that is not `*` holds the URL at its last position among the
   * paired keywords.
   */
  lemma UserpicMapValue(pickws: seq<string>, pickwurls: seq<string>, defaultpicurl: string, i: nat)
    requires i < |pickws| && i < |pickwurls|
    requires forall j :: i < j < |pickws| && j < |pickwurls| ==> pickws[j] != pickws[i]
    requires pickws[i] != "*" || defaultpicurl == ""
    ensures pickws[i] in UserpicMap(pickws, pickwurls, defaultpicurl)
    ensures UserpicMap(pickws, pickwurls, defaultpicurl)[pickws[i]] == pickwurls[i]
  {
    var n := if |pickws| < |pickwurls| then |pickws| else |pickwurls|;
    ZipMapLastWins(pickws[..n], pickwurls[..n], pickws[i]);
    assert pickws[..n][i] == pickws[i];
  }

  // ---------------------------------------------------------------------
  // File extensions

  const MimeExtensions: map<string, string> := map[
    "image/gif" := ".gif",
    "image/jpeg" := ".jpg",
    "image/png" := ".png"
  ]

  /**
   * `MimeExtensions.get(pic.info()["Content-Type"], "")`; a missing header
   * is `None`, which is no key of the table.
   */
  function Extension(contentType: Option<string>): (ext: string)
    ensures ext == "" <==> contentType.None? || contentType.value !in MimeExtensions
    ensures ext != "" ==> |ext| == 4 && ext[0] == '.'
    ensures contentType == Some("image/gif") ==> ext == ".gif"
    ensures contentType == Some("image/jpeg") ==> ext == ".jpg"
    ensures contentType == Some("image/png") ==> ext == ".png"
  {
    match contentType
    case Some(t) => if t in MimeExtensions then MimeExtensions[t] else ""
    case None => ""
  }

  // ---------------------------------------------------------------------
  // File names

  /** The characters `re.sub(r'[*?\\/:<>"|]', "_", p)` replaces. */
  predicate Forbidden(c: char)
  {
    c == '*' || c == '?' || c == '\\' || c == '/' || c == ':' || c == '<' || c == '>' || c == '"' || c == '|'
  }

  /** Every forbidden character of a keyword becomes `_`. */
  function Sanitize(p: string): (r: string)
    ensures |r| == |p|
    ensures forall i :: 0 <= i < |p| ==> r[i] == if Forbidden(p[i]) then '_' else p[i]
  {
    if p == [] then [] else [if Forbidden(p[0]) then '_' else p[0]] + Sanitize(p[1..])
  }

  /** `"".join([ord(x) < 128 and x or "_" for x in p])`. */
  function AsciiOnly(p: string): (r: string)
    ensures |r| == |p|
    ensures forall i :: 0 <= i < |p| ==> r[i] == if (p[i] as int) < 128 then p[i] else '_'
  {
    if p == [] then [] else [if (p[0] as int) < 128 then p[0] else '_'] + AsciiOnly(p[1..])
  }

  /**
   * The file name of a picture (ljdump.py:355-364): the sanitised keyword,
   * degraded to ASCII when the platform's decode step fails, then the
   * extension of the reply's content type.
   */
  function PictureFile(keyword: string, decodeOk: bool, contentType: Option<string>): string
  {
    var name := Sanitize(keyword);
    (if decodeOk then name else AsciiOnly(name)) + Extension(contentType)
  }

  /**
   * A picture file name keeps the keyword's length before the extension, has
   * no forbidden character there, keeps every allowed character, and is
   * ASCII-only on the fallback path.
   */
  lemma PictureFileSafe(keyword: string, decodeOk: bool, contentType: Option<string>)
    ensures var f := PictureFile(keyword, decodeOk, contentType);
            && |f| == |keyword| + |Extension(contentType)|
            && f[|keyword|..] == Extension(contentType)
            && (forall i :: 0 <= i < |keyword| ==> !Forbidden(f[i]))
            && (forall i :: 0 <= i < |keyword| && !Forbidden(keyword[i]) && (decodeOk || (keyword[i] as int) < 128)
                  ==> f[i] == keyword[i])
            && (!decodeOk ==> forall i :: 0 <= i < |keyword| ==> (f[i] as int) < 128)
  {
    var name := Sanitize(keyword);
    var base := if decodeOk then name else AsciiOnly(name);
    var f := PictureFile(keyword, decodeOk, contentType);
    assert f == base + Extension(contentType);
    assert f[..|keyword|] == base;
    assert forall i :: 0 <= i < |keyword| ==> f[i] == base[i];
  }

  /** Sanitising twice is sanitising once. */
  lemma SanitizeIdempotent(p: string)
    ensures Sanitize(Sanitize(p)) == Sanitize(p)
  {
  }
}
