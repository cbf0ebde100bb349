/**
 * The request set-up at the start of `ljdump` (ljdump.py:133-139): the
 * server URL loses a trailing `/interface/xmlrpc`, and the comment export
 * requests name the journal when it is not the user's own.
 */
module Session {
  import opened Wrappers

  const Endpoint := "/interface/xmlrpc"

  predicate OccursAt(s: string, j: nat)
  {
    j + |Endpoint| <= |s| && s[j..j + |Endpoint|] == Endpoint
  }

  /** The last place `Endpoint` occurs in `s`. */
  function LastOccurrence(s: string): (r: Option<nat>)
    ensures r.Some? ==> OccursAt(s, r.value) && forall j: nat :: r.value < j ==> !OccursAt(s, j)
    ensures r.None? ==> forall j: nat :: !OccursAt(s, j)
  {
    if |s| < |Endpoint| then None
    else if s[|s| - |Endpoint|..] == Endpoint then Some(|s| - |Endpoint|)
    else
      var r := LastOccurrence(s[..|s| - 1]);
      assert forall j: nat :: OccursAt(s, j) ==> j + |Endpoint| < |s| && OccursAt(s[..|s| - 1], j) by {
        forall j: nat | OccursAt(s, j) ensures j + |Endpoint| < |s| && OccursAt(s[..|s| - 1], j) {
          assert s[..|s| - 1][j..j + |Endpoint|] == s[j..j + |Endpoint|];
        }
      }
      if r.Some? then
        assert s[r.value..r.value + |Endpoint|] == s[..|s| - 1][r.value..r.value + |Endpoint|];
        r
      else r
  }

  /** The index of the first newline in `s`, or `|s|`. */
  function LineEnd(s: string): (e: nat)
    ensures e <= |s| && '\n' !in s[..e]
    ensures e < |s| ==> s[e] == '\n'
  {
    if s == [] || s[0] == '\n' then 0
    else
      var e := 1 + LineEnd(s[1..]);
      assert s[..e] == [s[0]] + s[1..][..e - 1];
      e
  }

  /**
   * `re.search("(.*)/interface/xmlrpc", s).group(1)`: `.` does not match a
   * newline, so the match starts at the beginning of the first line holding
   * the endpoint and the greedy group runs to its last occurrence there.
   */
  function Search(s: string): Option<string>
    decreases |s|
  {
    var e := LineEnd(s);
    match LastOccurrence(s[..e])
    case Some(j) => Some(s[..j])
    case None => if e == |s| then None else Search(s[e + 1..])
  }

  /** The server URL as `ljdump` uses it. */
  function ServerBase(server: string): string
  {
    match Search(server)
    case Some(base) => base
    case None => server
  }

  /**
   * On a one-line URL: a URL without the endpoint is kept, and otherwise the
   * result followed by the endpoint starts the URL and the endpoint does not
   * occur again after it.
   */
  lemma ServerBaseOfLine(server: string)
    requires '\n' !in server
    ensures (forall j: nat :: !OccursAt(server, j)) ==> ServerBase(server) == server
    ensures (exists j: nat :: OccursAt(server, j)) ==>
              var base := ServerBase(server);
              && OccursAt(server, |base|)
              && server[..|base|] == base
              && forall j: nat :: |base| < j ==> !OccursAt(server, j)
  {
    assert server[..|server|] == server;
  }

  /** The configured `https://host/interface/xmlrpc` becomes `https://host`. */
  lemma ServerBaseOfEndpoint(base: string)
    requires '\n' !in base
    ensures ServerBase(base + Endpoint) == base
  {
    var s := base + Endpoint;
    assert '\n' !in Endpoint;
    assert '\n' !in s by {
      forall i | 0 <= i < |s| ensures s[i] != '\n' {
        if i < |base| { assert s[i] == base[i]; } else { assert s[i] == Endpoint[i - |base|]; }
      }
    }
    assert OccursAt(s, |base|) by { assert s[|base|..|base| + |Endpoint|] == Endpoint; }
    ServerBaseOfLine(s);
    assert s[..|base|] == base;
  }

  /** The `authas` query suffix: empty for one's own journal. */
  function AuthAs(username: string, journal: string): (r: string)
    ensures r == "" <==> username == journal
    ensures r != "" ==> |r| >= 8 && r[..8] == "&authas=" && r[8..] == journal
  {
    if username != journal then "&authas=" + journal else ""
  }
}
