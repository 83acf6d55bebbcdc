/** The space placeholder: split_nucl and split_prot write every space of a
    sequence name as `$~&` so that later tools, which cut lines on spaces,
    see the whole name as one token; annotations.py turns `$~&` back into a
    space when it writes its tables. */
module Placeholder {
  import opened Strings

  const Marker: string := "$~&"

  /** `name.replace(" ", "$~&")`. */
  function Encode(name: string): string {
    Replace(name, " ", Marker)
  }

  /** `name.replace("$~&", " ")`. */
  function Decode(name: string): string {
    Replace(name, Marker, " ")
  }

  ghost predicate HasMarker(s: string) {
    exists i: nat :: OccursAt(s, Marker, i)
  }

  /** One step of `Encode`, from the front of the name. */
  lemma EncodeFirst(name: string)
    requires name != []
    ensures name[0] == ' ' ==> Encode(name) == Marker + Encode(name[1..])
    ensures name[0] != ' ' ==> Encode(name) == [name[0]] + Encode(name[1..])
  {
    assert name[0] == ' ' ==> " " <= name;
  }

  /** An encoded name has no spaces, so a tool that splits on spaces keeps it whole. */
  lemma {:induction false} EncodeHasNoSpace(name: string)
    ensures ' ' !in Encode(name)
    ensures |Encode(name)| == |name| + 2 * Count(name, ' ')
  {
    if name != [] {
      EncodeFirst(name);
      EncodeHasNoSpace(name[1..]);
    }
  }

  /** Names without the marker come back unchanged from the round trip. */
  lemma {:induction false} DecodeEncode(name: string)
    requires !HasMarker(name)
    ensures Decode(Encode(name)) == name
  {
    if name != [] {
      var rest := name[1..];
      assert !HasMarker(rest) by {
        forall i: nat ensures !OccursAt(rest, Marker, i) {
          assert i + 3 <= |rest| ==> rest[i..i + 3] == name[i + 1..i + 4];
          assert OccursAt(rest, Marker, i) ==> OccursAt(name, Marker, i + 1);
        }
      }
      DecodeEncode(rest);
      var e := Encode(rest);
      EncodeFirst(name);
      if name[0] == ' ' {
        assert Marker <= Marker + e;
        assert (Marker + e)[3..] == e;
      } else {
        var enc := [name[0]] + e;
        // enc could start with "$~&" only if name itself did
        assert !(Marker <= enc) by {
          assert Encode([]) == [];
          assert !OccursAt(name, Marker, 0);
          if rest != [] {
            EncodeFirst(rest);
            assert enc[1] == (if rest[0] == ' ' then '$' else rest[0]);
            var tail := rest[1..];
            if rest[0] == '~' && tail != [] {
              EncodeFirst(tail);
              assert enc == [name[0], rest[0]] + Encode(tail);
              assert enc[2] == (if tail[0] == ' ' then '$' else tail[0]);
              assert name[..3] == [name[0], rest[0], tail[0]];
            }
          }
        }
        assert enc[1..] == e;
      }
    }
  }
}
