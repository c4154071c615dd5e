/** The lease file as the list of lines it holds, in whatever order the table was walked. */
module LeaseFile {
  import opened LeaseModel

  datatype Line = Line(mac: Mac, ip: Ip, expiry: Time)

  /** lines has one line for each entry of f, and no other. */
  ghost predicate Prints(lines: seq<Line>, f: File) {
    && (forall i :: 0 <= i < |lines| ==> lines[i].mac in f && f[lines[i].mac] == Entry(lines[i].ip, lines[i].expiry))
    && (forall mac :: mac in f ==> exists i :: 0 <= i < |lines| && lines[i].mac == mac)
    && (forall i, j :: 0 <= i < j < |lines| ==> lines[i].mac != lines[j].mac)
  }

  /** What the lines say, a later line for the same MAC counting. */
  function Decode(lines: seq<Line>): File {
    if lines == [] then map[]
    else
      var l := lines[|lines| - 1];
      Decode(lines[..|lines| - 1])[l.mac := Entry(l.ip, l.expiry)]
  }

  /** The table that loading the lines one by one builds. */
  function LoadLines(lines: seq<Line>, now: Time): Table {
    if lines == [] then map[]
    else
      var l := lines[|lines| - 1];
      var t := LoadLines(lines[..|lines| - 1], now);
      if now > l.expiry then t else t[l.mac := Lease(l.ip, l.expiry, 0)]
  }

  lemma {:induction false} DecodeHas(lines: seq<Line>)
    requires forall i, j :: 0 <= i < j < |lines| ==> lines[i].mac != lines[j].mac
    ensures forall i :: 0 <= i < |lines| ==>
              lines[i].mac in Decode(lines) && Decode(lines)[lines[i].mac] == Entry(lines[i].ip, lines[i].expiry)
    ensures forall mac :: mac in Decode(lines) ==> exists i :: 0 <= i < |lines| && lines[i].mac == mac
  {
    if lines != [] {
      var n := |lines| - 1;
      DecodeHas(lines[..n]);
      forall mac | mac in Decode(lines)
        ensures exists i :: 0 <= i < |lines| && lines[i].mac == mac
      {
        if mac != lines[n].mac {
          assert mac in Decode(lines[..n]);
          var i :| 0 <= i < n && lines[..n][i].mac == mac;
          assert lines[i].mac == mac;
        }
      }
    }
  }

  lemma DecodePrinted(lines: seq<Line>, f: File)
    requires Prints(lines, f)
    ensures Decode(lines) == f
  {
    DecodeHas(lines);
    forall mac | mac in f
      ensures mac in Decode(lines) && Decode(lines)[mac] == f[mac]
    {
      var i :| 0 <= i < |lines| && lines[i].mac == mac;
    }
    forall mac | mac in Decode(lines)
      ensures mac in f
    {
      var i :| 0 <= i < |lines| && lines[i].mac == mac;
    }
  }

  /** Loading line by line is loading what the lines say, when no MAC has two lines. */
  lemma {:induction false} LoadDecodes(lines: seq<Line>, now: Time)
    requires forall i, j :: 0 <= i < j < |lines| ==> lines[i].mac != lines[j].mac
    ensures LoadLines(lines, now) == Loaded(Decode(lines), now)
  {
    if lines != [] {
      var n := |lines| - 1;
      LoadDecodes(lines[..n], now);
      DecodeHas(lines[..n]);
      assert lines[n].mac !in Decode(lines[..n]);
    }
  }

  /** Saving a table in any order and loading it at now gives exactly the leases whose expiry, cut to the second,
      is not before now: same MAC and address, an expiry less than a second earlier, a zero grant stamp. */
  lemma SaveLoad(t: Table, lines: seq<Line>, now: Time)
    requires Prints(lines, EntriesOf(t))
    ensures var r := LoadLines(lines, now);
            && (forall mac :: mac in r <==> mac in t && now <= Trunc(t[mac].expiry))
            && (forall mac :: mac in r ==>
                  r[mac].ip == t[mac].ip && r[mac].expiry <= t[mac].expiry < r[mac].expiry + SECOND &&
                      r[mac].granted == 0)
  {
    DecodePrinted(lines, EntriesOf(t));
    LoadDecodes(lines, now);
  }

  lemma LoadedTwice(f: File, now: Time)
    requires forall mac :: mac in f ==> f[mac].expiry % SECOND == 0
    ensures Loaded(EntriesOf(Loaded(f, now)), now) == Loaded(f, now)
  {
    forall mac | mac in Loaded(f, now)
      ensures Trunc(f[mac].expiry) == f[mac].expiry
    {
      TruncOfWhole(0, f[mac].expiry);
    }
  }

  /** A second save and load at the same instant loses nothing. */
  lemma SaveLoadAgain(t: Table, lines: seq<Line>, again: seq<Line>, now: Time)
    requires Prints(lines, EntriesOf(t)) && Prints(again, EntriesOf(LoadLines(lines, now)))
    ensures LoadLines(again, now) == LoadLines(lines, now)
  {
    DecodePrinted(lines, EntriesOf(t));
    LoadDecodes(lines, now);
    DecodePrinted(again, EntriesOf(LoadLines(lines, now)));
    LoadDecodes(again, now);
    LoadedTwice(EntriesOf(t), now);
  }
}
