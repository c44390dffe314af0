/** The generator as the object that performs the writes, one at a time, until it is done or dies. */
module DigestGenerators {
  import opened Wrappers
  import opened Episodes
  import opened Digests

  class DigestGenerator {
    var files: set<Path>
    var digests: map<string, Digest>
    var episodes: map<string, Episode>
    var lives: nat   // steps the process still lives to take
    ghost var loose: set<string>

    ghost function State(): World
      reads this
    {
      World(files, digests, episodes, loose)
    }

    constructor (files: set<Path>, digests: map<string, Digest>, episodes: map<string, Episode>, lives: nat, ghost loose: set<string>)
      ensures State() == World(files, digests, episodes, loose) && this.lives == lives
    {
      this.files, this.digests, this.episodes, this.lives, this.loose := files, digests, episodes, lives, loose;
    }

    method Write(action: Action) returns (alive: bool)
      modifies this
      ensures alive == (old(lives) > 0)
      ensures State() == if alive then Do(old(State()), action) else old(State())
      ensures lives == if alive then old(lives) - 1 else 0
    {
      if lives == 0 {
        return false;
      }
      lives := lives - 1;
      match action {
        case WriteFile(path) => files := files + {path};
        case PutDigest(week, digest) => digests := digests[week := digest];
        case ClaimOne(week, id, raises) =>
          if id in episodes && episodes[id].digestId.None? {
            if raises {
              loose := loose + {id};
            } else {
              episodes := episodes[id := ClaimEpisode(episodes[id], week)];
            }
          }
        case Complete(week) =>
          if week in digests {
            digests := digests[week := digests[week].(complete := true)];
          }
      }
      alive := true;
    }

    /** The name `_atomic_write` settles on: an existing file is never overwritten. */
    method FinalName(week: string) returns (path: Option<Path>)
      ensures path == FreePath(files, week, 1)
    {
      var final, revision := Path(week, 1), 2;
      while final in files
        invariant 2 <= revision <= LAST_REVISION + 1 && final == Path(week, revision - 1)
        invariant FreePath(files, week, 1) == FreePath(files, week, revision - 1)
        decreases LAST_REVISION + 1 - revision
      {
        final := Path(week, revision);
        revision := revision + 1;
        if revision > LAST_REVISION + 1 {
          return None;
        }
      }
      path := Some(final);
    }

    /** Claims each id in turn, going on when a claim raises, then sets the flag. */
    method MarkPublished(week: string, ids: seq<string>, failing: set<string>) returns (alive: bool)
      modifies this
      ensures alive == (old(lives) > |ids|)
      ensures var marking := Marking(week, ids, failing);
        State() == DoAll(old(State()), if old(lives) < |marking| then marking[..old(lives)] else marking)
    {
      ghost var marking := Marking(week, ids, failing);
      for i := 0 to |ids|
        invariant i + lives == old(lives)
        invariant State() == DoAll(old(State()), marking[..i])
      {
        assert marking[..i + 1][..i] == marking[..i] && marking[i] == ClaimOne(week, ids[i], ids[i] in failing);
        alive := Write(ClaimOne(week, ids[i], ids[i] in failing));
        if !alive {
          return;
        }
      }
      assert marking[..|ids|] == marking[..|marking| - 1] && marking[|ids|] == Complete(week);
      alive := Write(Complete(week));
    }

    /** `generate`: reconciles an interrupted week, else writes a new file, its record and its claims. */
    method Generate(week: string, picked: seq<string>, failing: set<string>)
      modifies this
      ensures State() == Digests.Generate(old(State()), week, picked, failing, old(lives))
    {
      ghost var plan := Plan(State(), week, picked, failing);
      if week in digests && !digests[week].complete {
        var _ := MarkPublished(week, digests[week].ids, failing);
        return;
      }
      var path := FinalName(week);
      if path.None? {
        return;
      }
      var previous := if week in digests then digests[week].runs else [];
      HeadRecords(State(), week, picked, path.value);
      var alive := Write(WriteFile(path.value));
      if !alive {
        assert plan[..0] == [];
        return;
      }
      alive := Write(PutDigest(week, Digest(path.value, picked, previous + [Run(path.value, picked)], false)));
      if !alive {
        assert plan[..1] == [WriteFile(path.value)];
        return;
      }
      ghost var head := plan[..2];
      assert head == [WriteFile(path.value), PutDigest(week, Recorded(old(State()), week, picked, path.value))];
      assert plan == head + Marking(week, picked, failing);
      var left := lives;
      var _ := MarkPublished(week, picked, failing);
      if left < |picked| + 1 {
        assert plan[..left + 2] == head + Marking(week, picked, failing)[..left];
        DoAllSplits(old(State()), head, Marking(week, picked, failing)[..left]);
      } else {
        DoAllSplits(old(State()), head, Marking(week, picked, failing));
      }
    }
  }
}
