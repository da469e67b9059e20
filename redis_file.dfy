/**
  Targets read from a CSV file with one target per row:
  `address[,password[,alias]]`.
 */
module RedisFile {
  import opened Wrappers
  import opened Targets

  /**
    The outcome of opening the file and decoding it as CSV with a variable
    number of fields per record. Opening the file and the CSV decoder are
    outside the model; only their outcome is. (When decoding fails the
    source returns without closing the file; there is no file handle here.)
   */
  datatype CsvRead =
    | OpenFailed(reason: string)
    | ParseFailed(reason: string)
    | Parsed(records: seq<seq<string>>)

  datatype FileError = OpenError(reason: string) | ParseError(reason: string)

  /**
    The targets one record contributes, chosen by its number of fields: one
    target for a record of one to three fields, with "" for the missing
    password and alias; none otherwise.
   */
  function RecordTarget(record: seq<string>): (ts: seq<Target>)
    ensures |ts| <= 1
    ensures |ts| == 1 <==> Usable(record)
    ensures |ts| == 1 ==> ts[0] == Target(Field(record, 0), Field(record, 1), Field(record, 2))
  {
    if |record| == 3 then [Target(record[0], record[1], record[2])]
    else if |record| == 2 then [Target(record[0], record[1], "")]
    else if |record| == 1 then [Target(record[0], "", "")]
    else []
  }

  /** The targets of all records, in record order. */
  function RecordTargets(records: seq<seq<string>>): (ts: seq<Target>)
    ensures |ts| <= |records|
  {
    if records == [] then []
    else RecordTargets(records[..|records| - 1]) + RecordTarget(records[|records| - 1])
  }

  /** A record the file format accepts: one to three fields. */
  predicate Usable(record: seq<string>) {
    1 <= |record| <= 3
  }

  /** Field `k` of the record, or "" when the record is shorter. */
  function Field(record: seq<string>, k: nat): string {
    if k < |record| then record[k] else ""
  }

  /**
    Reference reading of the file format: keep the usable records, in
    order, and fill their missing fields with "".
   */
  function UsableTargets(records: seq<seq<string>>): seq<Target> {
    if records == [] then []
    else
      (if Usable(records[0]) then [Target(records[0][0], Field(records[0], 1), Field(records[0], 2))] else [])
      + UsableTargets(records[1..])
  }

  /** Reading two runs of records one after the other gives their targets one after the other. */
  lemma {:induction false} RecordTargetsAppend(a: seq<seq<string>>, b: seq<seq<string>>)
    ensures RecordTargets(a + b) == RecordTargets(a) + RecordTargets(b)
    decreases |b|
  {
    if b == [] {
      assert a + b == a;
    } else {
      var b', last := b[..|b| - 1], b[|b| - 1];
      assert (a + b)[..|a + b| - 1] == a + b';
      assert (a + b)[|a + b| - 1] == last;
      calc {
        RecordTargets(a + b);
        RecordTargets(a + b') + RecordTarget(last);
        { RecordTargetsAppend(a, b'); }
        RecordTargets(a) + RecordTargets(b') + RecordTarget(last);
        RecordTargets(a) + RecordTargets(b);
      }
    }
  }

  /** The field-count switch agrees with the reference reading on every file. */
  lemma {:induction false} RecordTargetsAreUsableTargets(records: seq<seq<string>>)
    ensures RecordTargets(records) == UsableTargets(records)
  {
    if records != [] {
      RecordTargetsAppend([records[0]], records[1..]);
      assert [records[0]] + records[1..] == records;
      assert [records[0]][..0] == [];
      RecordTargetsAreUsableTargets(records[1..]);
    }
  }

  /** When every record has one to three fields, record `i` yields target `i`. */
  lemma {:induction false} AllRecordsUsable(records: seq<seq<string>>)
    requires forall i :: 0 <= i < |records| ==> Usable(records[i])
    ensures |RecordTargets(records)| == |records|
    ensures forall i :: 0 <= i < |records| ==>
      RecordTargets(records)[i] == Target(Field(records[i], 0), Field(records[i], 1), Field(records[i], 2))
  {
    if records != [] {
      var init := records[..|records| - 1];
      AllRecordsUsable(init);
    }
  }

  /** The example file `h1,p1,a1` / `h2,p2` / `h3`. */
  lemma ExampleFile()
    ensures RecordTargets([["h1", "p1", "a1"], ["h2", "p2"], ["h3"]])
      == [Target("h1", "p1", "a1"), Target("h2", "p2", ""), Target("h3", "", "")]
  {
  }

  /**
    `LoadRedisFile`: a failure to open or to decode the file is returned as
    the error with no targets; otherwise every record is interpreted in order.
   */
  method LoadRedisFile(read: CsvRead)
    returns (addrs: seq<string>, passwords: seq<string>, aliases: seq<string>, err: Option<FileError>)
    ensures read.OpenFailed? ==> err == Some(OpenError(read.reason))
    ensures read.ParseFailed? ==> err == Some(ParseError(read.reason))
    ensures !read.Parsed? ==> addrs == [] && passwords == [] && aliases == []
    ensures read.Parsed? ==> err == None && Columns(RecordTargets(read.records), addrs, passwords, aliases)
  {
    addrs, passwords, aliases := [], [], [];
    match read
    case OpenFailed(reason) =>
      return [], [], [], Some(OpenError(reason));
    case ParseFailed(reason) =>
      return [], [], [], Some(ParseError(reason));
    case Parsed(records) =>
      for i := 0 to |records|
        invariant Columns(RecordTargets(records[..i]), addrs, passwords, aliases)
      {
        var record := records[i];
        var length := |record|;
        if length == 3 {
          addrs, passwords, aliases := addrs + [record[0]], passwords + [record[1]], aliases + [record[2]];
        } else if length == 2 {
          addrs, passwords, aliases := addrs + [record[0]], passwords + [record[1]], aliases + [""];
        } else if length == 1 {
          addrs, passwords, aliases := addrs + [record[0]], passwords + [""], aliases + [""];
        }
        assert records[..i + 1][..i] == records[..i];
      }
      assert records[..|records|] == records;
      err := None;
  }
}
