/**
 * A small web, crawled two levels deep, evaluated through the model: the
 * seed "a" links to "b" and "c", and "b" links to "d". The first level
 * downloads "a"; the second downloads "b" and "c"; "d" is let through
 * into the frontier of a third level, which does not run.
 */
module Scenario {
  import opened Wrappers
  import opened Traversal

  function SampleLinks(page: string): Option<seq<Address>>
  {
    if page == "a" then Some(["b", "c"]) else if page == "b" then Some(["d"]) else Some([])
  }

  function SampleWeb(): Environment<string>
  {
    Environment(u => Some("host"), u => Some(u), SampleLinks, u => true, u => true)
  }

  /** What happens to each page of the sample web. */
  lemma Pages()
    ensures Fetched(SampleWeb(), "a") && ErrorOf(SampleWeb(), "a").None? && Discovered(SampleWeb(), "a") == ["b", "c"]
    ensures Fetched(SampleWeb(), "b") && ErrorOf(SampleWeb(), "b").None? && Discovered(SampleWeb(), "b") == ["d"]
    ensures Fetched(SampleWeb(), "c") && ErrorOf(SampleWeb(), "c").None? && Discovered(SampleWeb(), "c") == []
  {
    assert SampleLinks("a") == Some(["b", "c"]);
    assert SampleLinks("b") == Some(["d"]);
    assert SampleLinks("c") == Some([]);
  }

  lemma FilterFirst()
    ensures MarkAll({}, {"a"}, ["b", "c"]) == {"a", "b", "c"}
    ensures Accept({}, {"a"}, ["b", "c"]) == ["b", "c"]
  {
    assert ["b", "c"][..1] == ["b"];
    assert MarkAll({}, {"a"}, ["b"]) == {"a", "b"};
  }

  lemma FilterSecond()
    ensures MarkAll({}, {"a", "b", "c"}, ["d"]) == {"a", "b", "c", "d"}
    ensures Accept({}, {"a", "b", "c"}, ["d"]) == ["d"]
  {
    assert ["d"][..0] == [];
  }

  lemma FirstLevel()
    ensures var p := Levels(SampleWeb(), {}, Seeded("a"), 1);
      p.downloaded == ["a"] && p.errors == map[] && p.visited == {"a", "b", "c"} && p.nextPending == ["b", "c"]
  {
    var env := SampleWeb();
    var start := Seeded("a").(parties := 2, arrivals := 0, nextPending := []);
    Pages();
    FilterFirst();
    StepEffect(env, {}, start, "a");
    assert RunLevel(env, {}, start, ["a"]) == Step(env, {}, start, "a");
    assert Levels(env, {}, Seeded("a"), 1) == Advance(env, {}, Seeded("a"));
  }

  lemma SecondLevel(p: Progress)
    requires p.downloaded == ["a"] && p.errors == map[] && p.visited == {"a", "b", "c"} && p.nextPending == ["b", "c"]
    ensures var r := Advance(SampleWeb(), {}, p);
      r.downloaded == ["a", "b", "c"] && r.errors == map[] && r.nextPending == ["d"]
  {
    var env := SampleWeb();
    var start := p.(parties := 3, arrivals := 0, nextPending := []);
    var q := Step(env, {}, start, "b");
    Pages();
    FilterSecond();
    StepEffect(env, {}, start, "b");
    StepEffect(env, {}, q, "c");
    assert RunLevel(env, {}, start, ["b"]) == q;
    assert RunLevel(env, {}, start, ["b", "c"]) == Step(env, {}, q, "c");
  }

  /** The crawl of depth 2 downloads "a", "b" and "c", records no error,
      and leaves "d" in the frontier. */
  lemma TwoLevels()
    ensures var r := Crawl(SampleWeb(), {}, "a", 2);
      r.downloaded == ["a", "b", "c"] && r.errors == map[] && r.nextPending == ["d"]
  {
    assert !Excluded({}, "a");
    FirstLevel();
    SecondLevel(Levels(SampleWeb(), {}, Seeded("a"), 1));
    LevelsSucc(SampleWeb(), {}, Seeded("a"), 1);
  }
}
