/** Updating a user's review plan: request validation, the defaults for absent fields, the
    dynamic SET clause that updates only the fields the request carries, and the weekly word
    target derived from the plan. */
module ReviewPlan {
  import opened Common

  datatype PlanRequest = PlanRequest(
    dailyTargetWords: Option<int>,
    weeklyTargetDays: Option<int>,
    preferredTime: Option<string>,
    preferredDays: Option<seq<string>>,
    languageFocus: Option<string>,
    difficultyLevel: Option<string>,
    isActive: Option<bool>)

  datatype Plan = Plan(dailyTargetWords: int, weeklyTargetDays: int, preferredTime: string,
                       preferredDays: seq<string>, languageFocus: string,
                       difficultyLevel: string, isActive: bool)

  /** A bound parameter of the update statement; `Now` is the update time. */
  datatype Param = IntParam(i: int) | TextParam(s: string) | BoolParam(b: bool) | Now

  const DefaultPlan: Plan := Plan(20, 5, "18:00",
                                  ["Monday", "Tuesday", "Wednesday", "Thursday", "Friday"],
                                  "en", "medium", true)

  /** Rejects a daily target below 1 and a weekly target outside 1..7; absent values pass. */
  function Validate(req: PlanRequest): (r: Result<PlanRequest>)
    ensures r.Ok? <==> (req.dailyTargetWords.None? || req.dailyTargetWords.value >= 1)
                       && (req.weeklyTargetDays.None? || 1 <= req.weeklyTargetDays.value <= 7)
    ensures r.Ok? ==> r.value == req
    ensures req.dailyTargetWords.Some? && req.dailyTargetWords.value < 1
      ==> r == Err("每日目标单词数必须大于0")
  {
    if req.dailyTargetWords.Some? && req.dailyTargetWords.value < 1 then
      Err("每日目标单词数必须大于0")
    else if req.weeklyTargetDays.Some?
         && (req.weeklyTargetDays.value < 1 || req.weeklyTargetDays.value > 7) then
      Err("每周目标天数必须在1-7之间")
    else Ok(req)
  }

  function OrElse<T>(o: Option<T>, default: T): (v: T)
    ensures o.Some? ==> v == o.value
    ensures o.None? ==> v == default
  {
    if o.Some? then o.value else default
  }

  /** The plan the request describes, with the default for every absent field. */
  function Resolve(req: PlanRequest): (p: Plan)
    ensures req == PlanRequest(None, None, None, None, None, None, None) ==> p == DefaultPlan
  {
    Plan(OrElse(req.dailyTargetWords, DefaultPlan.dailyTargetWords),
         OrElse(req.weeklyTargetDays, DefaultPlan.weeklyTargetDays),
         OrElse(req.preferredTime, DefaultPlan.preferredTime),
         OrElse(req.preferredDays, DefaultPlan.preferredDays),
         OrElse(req.languageFocus, DefaultPlan.languageFocus),
         OrElse(req.difficultyLevel, DefaultPlan.difficultyLevel),
         OrElse(req.isActive, DefaultPlan.isActive))
  }

  /** A validated request resolves to a plan within the accepted ranges, and every field the
      request carries is kept. */
  lemma ValidatedPlanInRange(req: PlanRequest)
    requires Validate(req).Ok?
    ensures var p := Resolve(req);
      && p.dailyTargetWords >= 1 && 1 <= p.weeklyTargetDays <= 7
      && (req.dailyTargetWords.Some? ==> p.dailyTargetWords == req.dailyTargetWords.value)
      && (req.weeklyTargetDays.Some? ==> p.weeklyTargetDays == req.weeklyTargetDays.value)
      && (req.preferredDays.Some? ==> p.preferredDays == req.preferredDays.value)
  {
  }

  /** Which columns the request carries, in column order. */
  function Present(req: PlanRequest): (keep: seq<bool>)
    ensures |keep| == 7
  {
    [req.dailyTargetWords.Some?, req.weeklyTargetDays.Some?, req.preferredTime.Some?,
     req.preferredDays.Some?, req.languageFocus.Some?, req.difficultyLevel.Some?,
     req.isActive.Some?]
  }

  /** The value bound to each column, in column order; the day list is stored comma-joined. */
  function ColumnParams(p: Plan): (params: seq<Param>)
    ensures |params| == 7
  {
    [IntParam(p.dailyTargetWords), IntParam(p.weeklyTargetDays), TextParam(p.preferredTime),
     TextParam(Join(p.preferredDays, ",")), TextParam(p.languageFocus),
     TextParam(p.difficultyLevel), BoolParam(p.isActive)]
  }

  /** The elements of `xs` whose flag is set, in order. */
  function Select<T>(xs: seq<T>, keep: seq<bool>): (r: seq<T>)
    requires |xs| == |keep|
  {
    SelectUpTo(xs, keep, |xs|)
  }

  /** The flagged elements among the first `k`. */
  function SelectUpTo<T>(xs: seq<T>, keep: seq<bool>, k: nat): (r: seq<T>)
    requires |xs| == |keep| && k <= |xs|
    ensures |r| <= k
  {
    if k == 0 then [] else SelectUpTo(xs, keep, k - 1) + (if keep[k - 1] then [xs[k - 1]] else [])
  }

  /** With distinct elements, an element is among the first `n` selected exactly when its
      position is below `n` and flagged. */
  lemma {:induction false} SelectMembership<T>(xs: seq<T>, keep: seq<bool>, n: nat, k: nat)
    requires |xs| == |keep| && n <= |xs| && k < |xs|
    requires forall i, j :: 0 <= i < j < |xs| ==> xs[i] != xs[j]
    ensures xs[k] in SelectUpTo(xs, keep, n) <==> k < n && keep[k]
  {
    if n > 0 {
      SelectMembership(xs, keep, n - 1, k);
      if k != n - 1 {
        assert xs[k] != xs[n - 1];
      }
    }
  }

  lemma {:induction false} SelectExcludes<T>(xs: seq<T>, keep: seq<bool>, n: nat, x: T)
    requires |xs| == |keep| && n <= |xs| && x !in xs
    ensures x !in SelectUpTo(xs, keep, n)
  {
    if n > 0 {
      SelectExcludes(xs, keep, n - 1, x);
    }
  }

  /** The SET items, one per column, in column order. */
  const Assignments: seq<string> := ["daily_target_words = ?", "weekly_target_days = ?",
                                     "preferred_time = ?", "preferred_days = ?",
                                     "language_focus = ?", "difficulty_level = ?",
                                     "is_active = ?"]

  /** The optional SET items of a request, in column order. */
  function SetItems(req: PlanRequest): (items: seq<string>)
  {
    []
    + (if req.dailyTargetWords.Some? then ["daily_target_words = ?"] else [])
    + (if req.weeklyTargetDays.Some? then ["weekly_target_days = ?"] else [])
    + (if req.preferredTime.Some? then ["preferred_time = ?"] else [])
    + (if req.preferredDays.Some? then ["preferred_days = ?"] else [])
    + (if req.languageFocus.Some? then ["language_focus = ?"] else [])
    + (if req.difficultyLevel.Some? then ["difficulty_level = ?"] else [])
    + (if req.isActive.Some? then ["is_active = ?"] else [])
  }

  /** The values bound to the optional SET items, in the same order. */
  function SetParams(req: PlanRequest): (params: seq<Param>)
  {
    var p := Resolve(req);
    []
    + (if req.dailyTargetWords.Some? then [IntParam(p.dailyTargetWords)] else [])
    + (if req.weeklyTargetDays.Some? then [IntParam(p.weeklyTargetDays)] else [])
    + (if req.preferredTime.Some? then [TextParam(p.preferredTime)] else [])
    + (if req.preferredDays.Some? then [TextParam(Join(p.preferredDays, ","))] else [])
    + (if req.languageFocus.Some? then [TextParam(p.languageFocus)] else [])
    + (if req.difficultyLevel.Some? then [TextParam(p.difficultyLevel)] else [])
    + (if req.isActive.Some? then [BoolParam(p.isActive)] else [])
  }

  /** Builds the SET clause and its parameters: the optional items, and always `updated_at`
      last. */
  method BuildUpdate(req: PlanRequest) returns (updates: seq<string>, params: seq<Param>)
    ensures updates == SetItems(req) + ["updated_at = ?"]
    ensures params == SetParams(req) + [Now]
  {
    var p := Resolve(req);
    var joinedDays := Join(p.preferredDays, ",");
    updates, params := [], [];
    updates := AppendIf(updates, req.dailyTargetWords.Some?, "daily_target_words = ?");
    params := AppendIf(params, req.dailyTargetWords.Some?, IntParam(p.dailyTargetWords));
    updates := AppendIf(updates, req.weeklyTargetDays.Some?, "weekly_target_days = ?");
    params := AppendIf(params, req.weeklyTargetDays.Some?, IntParam(p.weeklyTargetDays));
    updates := AppendIf(updates, req.preferredTime.Some?, "preferred_time = ?");
    params := AppendIf(params, req.preferredTime.Some?, TextParam(p.preferredTime));
    updates := AppendIf(updates, req.preferredDays.Some?, "preferred_days = ?");
    params := AppendIf(params, req.preferredDays.Some?, TextParam(joinedDays));
    updates := AppendIf(updates, req.languageFocus.Some?, "language_focus = ?");
    params := AppendIf(params, req.languageFocus.Some?, TextParam(p.languageFocus));
    updates := AppendIf(updates, req.difficultyLevel.Some?, "difficulty_level = ?");
    params := AppendIf(params, req.difficultyLevel.Some?, TextParam(p.difficultyLevel));
    updates := AppendIf(updates, req.isActive.Some?, "is_active = ?");
    params := AppendIf(params, req.isActive.Some?, BoolParam(p.isActive));
    updates := updates + ["updated_at = ?"];
    params := params + [Now];
  }

  /** The optional items are exactly the columns the request carries, in column order, each
      with the value of its column; the update time is never among them. */
  lemma SetItemsSelectColumns(req: PlanRequest)
    ensures SetItems(req) == Select(Assignments, Present(req))
    ensures SetParams(req) == Select(ColumnParams(Resolve(req)), Present(req))
    ensures |SetItems(req)| == |SetParams(req)|
    ensures "updated_at = ?" !in SetItems(req)
  {
    SetItemsSelect(req);
    SetParamsSelect(req);
    SelectSameLength(Assignments, ColumnParams(Resolve(req)), Present(req), 7);
    SelectExcludes(Assignments, Present(req), 7, "updated_at = ?");
  }

  lemma SetItemsSelect(req: PlanRequest)
    ensures SetItems(req) == Select(Assignments, Present(req))
  {
    SelectSevenOf(Assignments[0], Assignments[1], Assignments[2], Assignments[3],
                  Assignments[4], Assignments[5], Assignments[6],
                  req.dailyTargetWords.Some?, req.weeklyTargetDays.Some?,
                  req.preferredTime.Some?, req.preferredDays.Some?, req.languageFocus.Some?,
                  req.difficultyLevel.Some?, req.isActive.Some?);
  }

  lemma SetParamsSelect(req: PlanRequest)
    ensures SetParams(req) == Select(ColumnParams(Resolve(req)), Present(req))
  {
    var p := Resolve(req);
    SelectSevenOf(IntParam(p.dailyTargetWords), IntParam(p.weeklyTargetDays),
                  TextParam(p.preferredTime), TextParam(Join(p.preferredDays, ",")),
                  TextParam(p.languageFocus), TextParam(p.difficultyLevel),
                  BoolParam(p.isActive),
                  req.dailyTargetWords.Some?, req.weeklyTargetDays.Some?,
                  req.preferredTime.Some?, req.preferredDays.Some?, req.languageFocus.Some?,
                  req.difficultyLevel.Some?, req.isActive.Some?);
  }

  /** One `if (field != null) list.add(x)` of the builder. */
  method AppendIf<T>(xs: seq<T>, present: bool, x: T) returns (ys: seq<T>)
    ensures ys == xs + (if present then [x] else [])
  {
    ys := xs;
    if present {
      ys := ys + [x];
    }
  }

  /** Selecting from seven elements, written out as the builder appends them. */
  lemma SelectSeven<T>(xs: seq<T>, keep: seq<bool>)
    requires |xs| == |keep| == 7
    ensures Select(xs, keep) ==
      [] + (if keep[0] then [xs[0]] else []) + (if keep[1] then [xs[1]] else [])
      + (if keep[2] then [xs[2]] else []) + (if keep[3] then [xs[3]] else [])
      + (if keep[4] then [xs[4]] else []) + (if keep[5] then [xs[5]] else [])
      + (if keep[6] then [xs[6]] else [])
  {
    var s1 := [] + (if keep[0] then [xs[0]] else []);
    assert SelectUpTo(xs, keep, 1) == s1;
    var s2 := s1 + (if keep[1] then [xs[1]] else []);
    assert SelectUpTo(xs, keep, 2) == s2;
    var s3 := s2 + (if keep[2] then [xs[2]] else []);
    assert SelectUpTo(xs, keep, 3) == s3;
    var s4 := s3 + (if keep[3] then [xs[3]] else []);
    assert SelectUpTo(xs, keep, 4) == s4;
    var s5 := s4 + (if keep[4] then [xs[4]] else []);
    assert SelectUpTo(xs, keep, 5) == s5;
    var s6 := s5 + (if keep[5] then [xs[5]] else []);
    assert SelectUpTo(xs, keep, 6) == s6;
  }

  lemma SelectSevenOf<T>(x0: T, x1: T, x2: T, x3: T, x4: T, x5: T, x6: T,
                         k0: bool, k1: bool, k2: bool, k3: bool, k4: bool, k5: bool, k6: bool)
    ensures Select([x0, x1, x2, x3, x4, x5, x6], [k0, k1, k2, k3, k4, k5, k6]) ==
      [] + (if k0 then [x0] else []) + (if k1 then [x1] else []) + (if k2 then [x2] else [])
      + (if k3 then [x3] else []) + (if k4 then [x4] else []) + (if k5 then [x5] else [])
      + (if k6 then [x6] else [])
  {
    SelectSeven([x0, x1, x2, x3, x4, x5, x6], [k0, k1, k2, k3, k4, k5, k6]);
  }

  lemma {:induction false} SelectSameLength<T, U>(xs: seq<T>, ys: seq<U>, keep: seq<bool>, n: nat)
    requires |xs| == |ys| == |keep| && n <= |xs|
    ensures |SelectUpTo(xs, keep, n)| == |SelectUpTo(ys, keep, n)|
  {
    if n > 0 {
      SelectSameLength(xs, ys, keep, n - 1);
    }
  }

  /** The SET clause names a column exactly when the request carries that field. */
  lemma SetClauseColumns(req: PlanRequest, k: nat)
    requires k < |Assignments|
    ensures Assignments[k] in SetItems(req) <==> Present(req)[k]
  {
    SetItemsSelectColumns(req);
    SelectMembership(Assignments, Present(req), 7, k);
  }

  /** The week's word target of a plan: for a plan within the accepted ranges, between one and
      seven days' worth of words, and an exact number of days' worth. */
  function WeeklyTargetTotal(p: Plan): (total: int)
    ensures p.dailyTargetWords >= 1 && 1 <= p.weeklyTargetDays <= 7 ==>
      p.dailyTargetWords <= total <= 7 * p.dailyTargetWords
      && total % p.weeklyTargetDays == 0 && total / p.weeklyTargetDays == p.dailyTargetWords
  {
    if p.dailyTargetWords >= 1 && 1 <= p.weeklyTargetDays <= 7 then
      ProductOfTargets(p.dailyTargetWords, p.weeklyTargetDays);
      p.dailyTargetWords * p.weeklyTargetDays
    else
      p.dailyTargetWords * p.weeklyTargetDays
  }

  lemma ProductOfTargets(d: int, w: int)
    requires d >= 1 && 1 <= w <= 7
    ensures d <= d * w <= 7 * d
    ensures (d * w) % w == 0 && (d * w) / w == d
  {
    var q, r := (d * w) / w, (d * w) % w;
    assert (q - d) * w == -r;
  }
}
