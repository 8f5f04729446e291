/**
 * The version manifest: the TXT record that names the current version of
 * every signature stream, how it is fetched with bounded retries
 * (`get_record`) and how `work` splits it into the four tracked versions.
 */
module Manifest {
  import opened Wrappers
  import opened Text
  import opened Environment

  /** The four signature streams, in the order `work` enqueues them. */
  datatype Stream = Main | Daily | Bytecode | Safebrowsing {
    function Name(): string {
      match this
      case Main => "main"
      case Daily => "daily"
      case Bytecode => "bytecode"
      case Safebrowsing => "safebrowsing"
    }

    /** Streams that `work` also queues for incremental `.cdiff` downloads. */
    predicate HasDiffs() {
      Name() in ["daily", "bytecode", "safebrowsing"]
    }
  }

  const StreamOrder: seq<Stream> := [Main, Daily, Bytecode, Safebrowsing]

  /** The remote version text of each stream, as read from the record. */
  datatype Versions = Versions(main: string, daily: string, safebrowsing: string, bytecode: string) {
    function Get(s: Stream): string {
      match s
      case Main => main
      case Daily => daily
      case Bytecode => bytecode
      case Safebrowsing => safebrowsing
    }
  }

  /**
   * `_, mainv, dailyv, _, _, _, safebrowsingv, bytecodev = record.split(':')`:
   * the unpacking raises unless there are exactly eight fields, that is,
   * exactly seven colons.
   */
  function ParseRecord(record: string): (r: Result<Versions, Error>)
    ensures r.Success? <==> multiset(record)[':'] == 7
    ensures r.Failure? ==> r.error == BadRecord(multiset(record)[':'] + 1)
  {
    SplitFields(record, ':');
    var fields := SplitOn(record, ':');
    if |fields| == 8 then Success(Versions(fields[1], fields[2], fields[6], fields[7]))
    else Failure(BadRecord(|fields|))
  }

  /**
   * A record made of eight colon-free fields parses to the fields at
   * (0-based) positions 1, 2, 6 and 7: main, daily, safebrowsing, bytecode.
   */
  lemma RecordRoundTrip(fields: seq<string>)
    requires |fields| == 8
    requires forall i :: 0 <= i < 8 ==> ':' !in fields[i]
    ensures ParseRecord(JoinWith(fields, ':')) == Success(Versions(fields[1], fields[2], fields[6], fields[7]))
  {
    JoinSplit(fields, ':');
  }

  /** Whatever record parses, it is the colon-join of its fields, and no version holds a colon. */
  lemma ParsedRecordFields(record: string)
    requires ParseRecord(record).Success?
    ensures var v := ParseRecord(record).value;
      ':' !in v.main && ':' !in v.daily && ':' !in v.safebrowsing && ':' !in v.bytecode
    ensures record == JoinWith(SplitOn(record, ':'), ':')
  {
    SplitFields(record, ':');
    SplitJoin(record, ':');
  }

  /** How `get_record` ends: with the record text, or with `sys.exit(3)`. */
  datatype RecordQuery = Record(text: string) | Exit(code: int)

  /** The number of TXT queries `get_record` makes at most. */
  const RecordPasses: nat := 4

  /** What `get_record` settles on from query `passno` on: the first non-empty answer, else exit code 3. */
  function FirstAnswer(dns: nat -> string, passno: nat): RecordQuery
    decreases RecordPasses + 1 - passno
  {
    if passno > RecordPasses then Exit(3)
    else if dns(passno) != "" then Record(dns(passno))
    else FirstAnswer(dns, passno + 1)
  }

  /** The run gives up with exit code 3 exactly when all four queries come back empty. */
  lemma {:induction false} FirstAnswerExits(dns: nat -> string, passno: nat)
    requires 1 <= passno
    ensures FirstAnswer(dns, passno).Exit? <==> forall k :: passno <= k <= RecordPasses ==> dns(k) == ""
    ensures FirstAnswer(dns, passno).Exit? ==> FirstAnswer(dns, passno).code == 3
    ensures FirstAnswer(dns, passno).Record? ==>
      exists k :: passno <= k <= RecordPasses && FirstAnswer(dns, passno).text == dns(k) != ""
    decreases RecordPasses + 1 - passno
  {
    if passno <= RecordPasses && dns(passno) == "" {
      FirstAnswerExits(dns, passno + 1);
    }
  }

  /**
   * `get_record`: query the TXT record up to four times, sleeping five
   * seconds after every empty answer, and stop at the first non-empty one.
   * Also returns how many queries were made and how many sleeps taken.
   */
  method GetRecord(dns: nat -> string) returns (r: RecordQuery, queries: nat, sleeps: nat)
    ensures 1 <= queries <= 4
    ensures forall k :: 1 <= k < queries ==> dns(k) == ""
    ensures r.Record? ==> r.text == dns(queries) && r.text != "" && sleeps == queries - 1
    ensures r.Exit? ==> r.code == 3 && queries == 4 && dns(4) == "" && sleeps == 4
    ensures r == FirstAnswer(dns, 1)
  {
    var count := 1;
    var record := "";
    sleeps := 0;
    var passno := 1;
    while passno < 5
      invariant 1 <= passno <= 5
      invariant count == if passno == 1 then 1 else passno - 1
      invariant forall k :: 1 <= k < passno ==> dns(k) == ""
      invariant record == "" && sleeps == passno - 1
      invariant FirstAnswer(dns, passno) == FirstAnswer(dns, 1)
    {
      count := passno;
      record := dns(passno);
      if record != "" {
        break;
      }
      sleeps := sleeps + 1;
      passno := passno + 1;
    }
    queries := count;
    if record == "" {
      r := Exit(3);
    } else {
      r := Record(record);
    }
  }
}
