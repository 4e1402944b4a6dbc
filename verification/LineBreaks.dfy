/** The line-breaking output feed that both encoders write through. */
module LineBreaks {
  import opened Texts
  import opened Division

  const NEW_LINE: CodeUnit := 0x0A

  /** `fed` with a line break before every unit that starts a new line of `interval` units. */
  function Wrapped(fed: Text, interval: nat): Text
    requires interval > 0
    decreases |fed|
  {
    if fed == [] then []
    else
      var init := fed[..|fed| - 1];
      Wrapped(init, interval)
      + (if |init| > 0 && |init| % interval == 0 then [NEW_LINE] else [])
      + [fed[|fed| - 1]]
  }

  /** How many units stand on the last line. */
  function Column(fed: nat, interval: nat): nat
    requires interval > 0
  {
    if fed == 0 then 0 else (fed - 1) % interval + 1
  }

  class LineBreakFeed {
    const interval: nat
    var sb: Text
    var column: nat
    ghost var fed: Text

    ghost predicate Valid()
      reads this
    {
      && interval > 0
      && sb == Wrapped(fed, interval)
      && column == Column(|fed|, interval)
    }

    constructor (interval: nat)
      requires interval > 0
      ensures Valid() && this.interval == interval && fed == []
    {
      this.interval := interval;
      sb, column, fed := [], 0, [];
    }

    method Output(c: CodeUnit)
      requires Valid()
      modifies this
      ensures Valid() && fed == old(fed) + [c]
    {
      ColumnStep(|fed|, interval);
      if column == interval {
        sb := sb + [NEW_LINE];
        column := 0;
      }
      sb := sb + [c];
      column := column + 1;
      fed := fed + [c];
      assert fed[..|fed| - 1] == old(fed);
    }

    method OutputAll(t: Text)
      requires Valid()
      modifies this
      ensures Valid() && fed == old(fed) + t
    {
      for i := 0 to |t|
        invariant Valid() && fed == old(fed) + t[..i]
      {
        Output(t[i]);
        assert t[..i] + [t[i]] == t[..i + 1];
      }
      assert t[..|t|] == t;
    }
  }

  lemma ColumnStep(n: nat, interval: nat)
    requires interval > 0
    ensures Column(n, interval) == interval <==> n > 0 && n % interval == 0
    ensures Column(n + 1, interval) == (if Column(n, interval) == interval then 1 else Column(n, interval) + 1)
  {
    if n > 0 {
      ModStep(n - 1, interval);
    }
  }

  /** Dropping the line breaks gives back what was fed. */
  lemma {:induction false} UnwrapWrapped(fed: Text, interval: nat)
    requires interval > 0
    ensures Without(Wrapped(fed, interval), NEW_LINE) == Without(fed, NEW_LINE)
    decreases |fed|
  {
    if fed != [] {
      var init, last := fed[..|fed| - 1], fed[|fed| - 1];
      var nl := if |init| > 0 && |init| % interval == 0 then [NEW_LINE] else [];
      UnwrapWrapped(init, interval);
      WithoutConcat(Wrapped(init, interval) + nl, [last], NEW_LINE);
      WithoutConcat(Wrapped(init, interval), nl, NEW_LINE);
      WithoutConcat(init, [last], NEW_LINE);
      assert fed == init + [last];
    }
  }

  lemma {:induction false} OneLine(fed: Text, interval: nat)
    requires interval > 0 && |fed| <= interval
    ensures Wrapped(fed, interval) == fed
    decreases |fed|
  {
    if fed != [] {
      var init, last := fed[..|fed| - 1], fed[|fed| - 1];
      OneLine(init, interval);
      assert fed == init + [last];
      ModOf(0, |init|, interval, |init|);
    }
  }

  lemma WrappedSnoc(fed: Text, last: CodeUnit, interval: nat)
    requires interval > 0
    ensures Wrapped(fed + [last], interval)
         == Wrapped(fed, interval) + (if |fed| > 0 && |fed| % interval == 0 then [NEW_LINE] else []) + [last]
  {
    assert (fed + [last])[..|fed|] == fed;
  }

  /** Every line but the last has `interval` units, and a line break stands between lines only. */
  lemma {:induction false} WrappedLines(fed: Text, interval: nat)
    requires interval > 0
    ensures Wrapped(fed, interval)
         == if |fed| <= interval then fed else fed[..interval] + [NEW_LINE] + Wrapped(fed[interval..], interval)
    decreases |fed|
  {
    hide Wrapped;
    if |fed| <= interval {
      OneLine(fed, interval);
    } else {
      var init, last := fed[..|fed| - 1], fed[|fed| - 1];
      assert fed == init + [last] && fed[interval..] == init[interval..] + [last];
      assert fed[..interval] == init[..interval];
      WrappedSnoc(init, last, interval);
      WrappedSnoc(init[interval..], last, interval);
      if |init| == interval {
        ModOf(1, 0, interval, interval);
        OneLine(init, interval);
        OneLine([], interval);
        assert init[interval..] == [];
      } else {
        WrappedLines(init, interval);
        ModShift(|init| - interval, interval);
      }
    }
  }

  /** The first line is emitted in one piece, and a longer feed is broken right after it. */
  lemma WrappedFirstLine(fed: Text, interval: nat)
    requires interval > 0
    ensures |fed| <= interval ==> Wrapped(fed, interval) == fed
    ensures |fed| > interval ==> fed[..interval] + [NEW_LINE] <= Wrapped(fed, interval)
  {
    WrappedLines(fed, interval);
  }
}
