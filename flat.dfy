/**
 * `flatresponse` (ljdump.py:52-64): a flat-protocol reply is a stream of
 * lines read two at a time, a name and then its value, until `readline`
 * returns the empty string at the end of the stream.
 */
module Flat {
  import opened Wrappers
  import Text

  /**
   * The reply as the successive results of `readline`; reading past the last
   * one gives "". A reply whose last name has no value line makes the source
   * fail on `value[-1]`: that is `None` here.
   */
  function ReadAt(lines: seq<string>, i: nat): string
  {
    if i < |lines| then lines[i] else ""
  }

  /** The specification of the loop, consuming the lines two at a time. */
  function Decode(lines: seq<string>, acc: map<string, string>): Option<map<string, string>>
    decreases |lines|
  {
    var name := ReadAt(lines, 0);
    if |name| == 0 then Some(acc)
    else
      var value := ReadAt(lines, 1);
      if |value| == 0 then None
      else Decode(lines[2..], acc[Text.Chomp(name) := Text.Chomp(value)])
  }

  /** The loop of `flatresponse`, building the dictionary `r` in place. */
  method FlatResponse(lines: seq<string>) returns (r: Option<map<string, string>>)
    ensures r == Decode(lines, map[])
  {
    var m: map<string, string> := map[];
    var i := 0;
    while true
      invariant i <= |lines|
      invariant Decode(lines[i..], m) == Decode(lines, map[])
      decreases |lines| - i
    {
      var name := if i < |lines| then lines[i] else "";
      if |name| == 0 {
        break;
      }
      name := Text.Chomp(name);
      var value := if i + 1 < |lines| then lines[i + 1] else "";
      if |value| == 0 {
        return None;
      }
      value := Text.Chomp(value);
      m := m[name := value];
      assert lines[i..][2..] == lines[i + 2..];
      i := i + 2;
    }
    r := Some(m);
  }

  /** The index of the first line that reads as "". */
  function FirstBlank(lines: seq<string>): (k: nat)
    ensures k <= |lines|
    ensures forall i :: 0 <= i < k ==> lines[i] != ""
    ensures k < |lines| ==> lines[k] == ""
  {
    if lines == [] || lines[0] == "" then 0 else 1 + FirstBlank(lines[1..])
  }

  /** The reply is malformed exactly when the stream ends in place of a value. */
  lemma {:induction false} DecodeFailsIffValueMissing(lines: seq<string>, acc: map<string, string>)
    ensures Decode(lines, acc) == None <==> FirstBlank(lines) % 2 == 1
  {
    if lines != [] && lines[0] != "" && |lines| >= 2 && lines[1] != "" {
      DecodeFailsIffValueMissing(lines[2..], acc[Text.Chomp(lines[0]) := Text.Chomp(lines[1])]);
      assert FirstBlank(lines) == 2 + FirstBlank(lines[2..]) by {
        assert lines[1..][1..] == lines[2..];
      }
    } else if lines != [] && lines[0] != "" {
      assert FirstBlank(lines) == 1 by {
        if |lines| >= 2 { assert lines[1..][0] == lines[1]; }
      }
    }
  }

  /** The lines a server writes for a list of name/value pairs. */
  function Encode(pairs: seq<(string, string)>): (lines: seq<string>)
    ensures |lines| == 2 * |pairs|
  {
    if pairs == [] then []
    else [pairs[0].0 + "\n", pairs[0].1 + "\n"] + Encode(pairs[1..])
  }

  /** The dictionary the pairs stand for: a later name overwrites an earlier one. */
  function Assign(acc: map<string, string>, pairs: seq<(string, string)>): map<string, string>
    decreases |pairs|
  {
    if pairs == [] then acc else Assign(acc[pairs[0].0 := pairs[0].1], pairs[1..])
  }

  predicate OneLine(s: string) { '\n' !in s }

  /** Reading what was written for pairs of one-line names and values gives their dictionary. */
  lemma {:induction false} DecodeEncode(pairs: seq<(string, string)>, acc: map<string, string>)
    requires forall i :: 0 <= i < |pairs| ==> OneLine(pairs[i].0) && OneLine(pairs[i].1)
    ensures Decode(Encode(pairs), acc) == Some(Assign(acc, pairs))
  {
    if pairs != [] {
      var lines := Encode(pairs);
      var (k, v) := pairs[0];
      assert lines[0] == k + "\n" && lines[1] == v + "\n";
      assert Text.Chomp(k + "\n") == k && Text.Chomp(v + "\n") == v by {
        assert (k + "\n")[..|k|] == k;
        assert (v + "\n")[..|v|] == v;
      }
      assert lines[2..] == Encode(pairs[1..]);
      DecodeEncode(pairs[1..], acc[k := v]);
    }
  }

  /**
   * A name is in the dictionary exactly when it was in `acc` or is named by a
   * pair, and it holds the value of its last pair.
   */
  lemma {:induction false} AssignLastWins(acc: map<string, string>, pairs: seq<(string, string)>, name: string)
    ensures name in Assign(acc, pairs) <==> name in acc || exists i :: 0 <= i < |pairs| && pairs[i].0 == name
    ensures forall i :: 0 <= i < |pairs| && pairs[i].0 == name
                        && (forall j :: i < j < |pairs| ==> pairs[j].0 != name)
                        ==> name in Assign(acc, pairs) && Assign(acc, pairs)[name] == pairs[i].1
    ensures (forall i :: 0 <= i < |pairs| ==> pairs[i].0 != name) && name in acc
            ==> name in Assign(acc, pairs) && Assign(acc, pairs)[name] == acc[name]
    decreases |pairs|
  {
    if pairs != [] {
      var next := acc[pairs[0].0 := pairs[0].1];
      AssignLastWins(next, pairs[1..], name);
      if exists i :: 0 <= i < |pairs| && pairs[i].0 == name {
        var i :| 0 <= i < |pairs| && pairs[i].0 == name;
        if i > 0 { assert pairs[1..][i - 1].0 == name; }
      }
      forall i | 0 <= i < |pairs| && pairs[i].0 == name && (forall j :: i < j < |pairs| ==> pairs[j].0 != name)
        ensures name in Assign(acc, pairs) && Assign(acc, pairs)[name] == pairs[i].1
      {
        if i > 0 {
          assert pairs[1..][i - 1] == pairs[i];
          assert forall j :: i - 1 < j < |pairs[1..]| ==> pairs[1..][j].0 != name by {
            forall j | i - 1 < j < |pairs[1..]| ensures pairs[1..][j].0 != name {
              assert pairs[1..][j] == pairs[j + 1];
            }
          }
        } else {
          assert forall j :: 0 <= j < |pairs[1..]| ==> pairs[1..][j].0 != name by {
            forall j | 0 <= j < |pairs[1..]| ensures pairs[1..][j].0 != name {
              assert pairs[1..][j] == pairs[j + 1];
            }
          }
        }
      }
    }
  }
}
