/** Telemetry samples and closed time windows over them, shared by the two window generators. Times are integer
  * milliseconds, values are reals. */
module Telemetry {
  import opened Wrappers

  /** The string column: what strconv.ParseFloat makes of it is all that matters. */
  datatype Text = NoText | EmptyText | Unparsable | Parsed(number: real)

  /** A row of telemetry_datas of one device and key. */
  datatype Sample = Sample(ts: int, number: Option<real>, text: Text)

  /** Integer division, in Go and in SQL, and conversion to an integer truncate towards zero. */
  function Truncate(a: int, b: int): int
    requires b > 0
  {
    if a >= 0 then a / b else -((-a) / b)
  }

  /** ts BETWEEN lo AND hi: both ends belong to the window. */
  datatype Window = Window(lo: int, hi: int)

  predicate Within(ts: int, lo: int, hi: int) {
    lo <= ts <= hi
  }

  /** The unique constraint (device_id, key, ts), for the rows of one device and key. */
  ghost predicate UniqueTimes(rows: seq<Sample>) {
    forall i, j :: 0 <= i < j < |rows| ==> rows[i].ts != rows[j].ts
  }

  /** Windows in time order, each starting where the one before it ends, that run exactly from lo to hi. */
  ghost predicate Tiles(ws: seq<Window>, lo: int, hi: int) {
    && |ws| > 0
    && ws[0].lo == lo && ws[|ws| - 1].hi == hi
    && (forall i :: 0 <= i < |ws| ==> ws[i].lo <= ws[i].hi)
    && (forall i :: 0 <= i < |ws| - 1 ==> ws[i].hi == ws[i + 1].lo)
  }

  lemma TilesTail(ws: seq<Window>, lo: int, hi: int)
    requires Tiles(ws, lo, hi) && |ws| > 1
    ensures Tiles(ws[1..], ws[0].hi, hi) && lo <= ws[0].hi
  {
  }

  lemma {:induction false} TilesOrder(ws: seq<Window>, lo: int, hi: int)
    requires Tiles(ws, lo, hi)
    ensures forall i :: 0 <= i < |ws| ==> lo <= ws[i].lo <= ws[i].hi <= hi
    ensures forall i, j :: 0 <= i < j < |ws| ==> ws[i].hi <= ws[j].lo
  {
    if |ws| > 1 {
      TilesTail(ws, lo, hi);
      TilesOrder(ws[1..], ws[0].hi, hi);
      forall i, j | 0 <= i < j < |ws| ensures ws[i].hi <= ws[j].lo {
        assert ws[j] == ws[1..][j - 1];
        if i > 0 { assert ws[i] == ws[1..][i - 1]; }
      }
      forall i | 0 < i < |ws| ensures lo <= ws[i].lo <= ws[i].hi <= hi {
        assert ws[i] == ws[1..][i - 1];
      }
    }
  }

  /** Windows that tile a range cover exactly the range. */
  lemma {:induction false} TilesCover(ws: seq<Window>, lo: int, hi: int, t: int)
    requires Tiles(ws, lo, hi)
    ensures Within(t, lo, hi) <==> exists i :: 0 <= i < |ws| && Within(t, ws[i].lo, ws[i].hi)
  {
    TilesOrder(ws, lo, hi);
    if Within(t, lo, hi) {
      if t <= ws[0].hi {
        assert Within(t, ws[0].lo, ws[0].hi);
      } else {
        TilesTail(ws, lo, hi);
        TilesCover(ws[1..], ws[0].hi, hi, t);
        var i :| 0 <= i < |ws[1..]| && Within(t, ws[1..][i].lo, ws[1..][i].hi);
        assert ws[i + 1] == ws[1..][i];
      }
    }
  }
}
