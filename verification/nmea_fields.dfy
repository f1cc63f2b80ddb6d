/**
 * Python's `line.split(",")`: a sentence is cut at every comma, keeping empty
 * fields, so a line with n commas always yields n + 1 fields.
 */
module NmeaFields {

  function Split(s: string): (fields: seq<string>)
    ensures |fields| >= 1
  {
    if s == [] then [""]
    else
      var rest := Split(s[1..]);
      if s[0] == ',' then [""] + rest else [[s[0]] + rest[0]] + rest[1..]
  }

  /** `",".join(fields)`, the inverse of `Split`. */
  function Join(fields: seq<string>): string
    requires |fields| >= 1
  {
    if |fields| == 1 then fields[0] else fields[0] + "," + Join(fields[1..])
  }

  function CommaCount(s: string): nat
  {
    if s == [] then 0 else (if s[0] == ',' then 1 else 0) + CommaCount(s[1..])
  }

  predicate CommaFree(s: string) { ',' !in s }

  /** The number of fields is one more than the number of commas. */
  lemma {:induction false} SplitCount(s: string)
    ensures |Split(s)| == CommaCount(s) + 1
  {
    if s != [] { SplitCount(s[1..]); }
  }

  /** No field contains the separator. */
  lemma {:induction false} SplitFieldsCommaFree(s: string)
    ensures forall i | 0 <= i < |Split(s)| :: CommaFree(Split(s)[i])
  {
    if s != [] { SplitFieldsCommaFree(s[1..]); }
  }

  /** Joining the fields back with commas restores the line. */
  lemma {:induction false} JoinSplit(s: string)
    ensures Join(Split(s)) == s
  {
    if s != [] {
      var rest := Split(s[1..]);
      JoinSplit(s[1..]);
      if s[0] == ',' {
        assert Join(Split(s)) == "" + "," + Join(rest);
      } else if |rest| == 1 {
        assert Join(Split(s)) == [s[0]] + rest[0];
      } else {
        assert Join(rest) == rest[0] + "," + Join(rest[1..]);
        assert Split(s)[1..] == rest[1..];
        assert Join(Split(s)) == [s[0]] + rest[0] + "," + Join(rest[1..]);
      }
    }
  }

  lemma {:induction false} SplitCommaFree(a: string)
    requires CommaFree(a)
    ensures Split(a) == [a]
  {
    if a != [] {
      assert CommaFree(a[1..]) by { assert forall i | 0 <= i < |a[1..]| :: a[1..][i] == a[i + 1]; }
      SplitCommaFree(a[1..]);
      assert a[0] != ',' && [a[0]] + a[1..] == a;
    }
  }

  lemma {:induction false} SplitField(a: string, rest: string)
    requires CommaFree(a)
    ensures Split(a + "," + rest) == [a] + Split(rest)
  {
    if a == [] {
      assert a + "," + rest == [','] + rest;
    } else {
      assert CommaFree(a[1..]) by { assert forall i | 0 <= i < |a[1..]| :: a[1..][i] == a[i + 1]; }
      SplitField(a[1..], rest);
      assert (a + "," + rest)[1..] == a[1..] + "," + rest;
      assert [a[0]] + a[1..] == a;
    }
  }

  /** Splitting a join of comma-free fields gives the fields back. */
  lemma {:induction false} SplitJoin(fields: seq<string>)
    requires |fields| >= 1
    requires forall i | 0 <= i < |fields| :: CommaFree(fields[i])
    ensures Split(Join(fields)) == fields
  {
    if |fields| == 1 {
      SplitCommaFree(fields[0]);
    } else {
      SplitJoin(fields[1..]);
      SplitField(fields[0], Join(fields[1..]));
    }
  }

  /** The joined line begins with its first field. */
  lemma JoinStartsWithFirst(fields: seq<string>)
    requires |fields| >= 1
    ensures |fields[0]| <= |Join(fields)| && Join(fields)[..|fields[0]|] == fields[0]
  {
    if |fields| > 1 {
      var rest := "," + Join(fields[1..]);
      assert Join(fields) == fields[0] + rest;
      assert (fields[0] + rest)[..|fields[0]|] == fields[0];
    }
  }

  /** n empty fields join to n - 1 commas. */
  lemma {:induction false} JoinOfEmptyFields(fields: seq<string>)
    requires |fields| >= 1 && forall i | 0 <= i < |fields| :: fields[i] == ""
    ensures |Join(fields)| == |fields| - 1
  {
    if |fields| > 1 { JoinOfEmptyFields(fields[1..]); }
  }
}
