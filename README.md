# Profile page core, modelled in Dafny

`script.js` is the browser client of a student profile page. It signs the
user in and keeps the returned token in `localStorage`. It then fetches the
user's XP entries and transactions and shows three derived figures:

- the module-XP total in KB;
- a pie chart of the best amount per known skill;
- a bar chart of all transactions.

Most of the file is network, DOM and chart-library glue. This project models
the logic inside it, module by module:

- `Records` (`records.dfy`): the fetched records.
  - `XpEntry` is an XP entry: a path and an amount.
  - `Transaction` is a transaction: a timestamp, an amount and a `type`.
  - `UserProfile` is the part of the fetched user the page uses.
- `TotalXp` (`total_xp.dfy`): `calculateTotalXP`.
  - The regex `/module(?!\/piscine)/i` is modelled as a search over start positions, with ASCII case folding.
  - The kept amounts are summed and 70000 is added.
  - `toFixed(0)` of the sum divided by 1000 is modelled on integers. It rounds the magnitude half up, so negative ties round away from zero.
- `Skills` (`skills.dfy`): the skill aggregation in `createPieChart`.
  - The `filter` and `reduce` become a left fold. The accumulator is an ordered association list, because object keys keep their insertion order.
  - Each recorded value is `Math.max(acc[k] || 0, amount)`.
  - The "no data" guard counts keys only.
  - Each percentage is computed as an exact `real`. A total of 0 gives the explicit `NotANumber` slice, because `0 / 0` is NaN in the source.
- `Token` (`token.dfy`): the check `token && token.split('.').length === 3`.
  - It comes with a model of `split` and `join` for a one-character separator.
  - The check tests the three-segment compact form of a JSON Web Token (RFC 7519, section 3; RFC 7515, section 7.1), and nothing more.
- `BarChart` (`bar_chart.dfy`): the `transactions.map` that builds the bar-chart series.
- `Session` (`session.dfy`): the class `Page` keeps the session state.
  - `store` stands for localStorage.
  - `screen` records which container is visible.
  - `errorText` is the error message.
  - `shown` holds the metrics last rendered.
  - The methods are `Login`, the end of the profile fetch (`ReceiveProfile`), `Logout`, and `PageStart`, the `DOMContentLoaded` reset.
  - The sign-in reply and the fetched user come in as method arguments.

The regex's lookahead applies to each occurrence of "module" separately. A
path that contains "module/piscine" is still counted when another "module"
in it is not followed by "/piscine". So "piscine entries never count" is not
what the code does. The model follows the code, and
`TotalXp.LookaheadIsPerOccurrence` exhibits such a path.

In the same way, "the percentages always sum to 100" holds only when the
total is positive. The guard lets through a set of keys whose values are all
0, and then every slice is NaN (`Skills.ZeroTotalGivesNaN`).

## Model

| member | source | states |
|---|---|---|
| TotalXp.IsModuleXp | script.js:159-161 | the regex test holds exactly when some occurrence of "module", in any ASCII case, is not immediately followed by "/piscine" in any case |
| TotalXp.ModuleEntries | script.js:160-161 | the filter never adds entries; which entries it keeps, and in what order, is stated by ModuleEntriesKeeps and ModuleEntriesAppend |
| TotalXp.Sum | script.js:162 | no contract of its own: the left-fold sum from 0; SumAppend and ModuleXpInsert state what it adds up |
| TotalXp.ModuleEntriesKeeps | script.js:160-161 | the filter keeps exactly the entries whose path the regex accepts |
| TotalXp.ModuleEntriesAppend | script.js:160-161 | filtering two runs of entries one after the other gives the two filtered runs one after the other, so the filter keeps the order |
| TotalXp.SumAppend | script.js:162 | the reduce over two runs of entries is the sum of the two reduces |
| TotalXp.RoundThousandths | script.js:164 | the result n is t/1000 rounded to the nearest integer; ties go up for t >= 0 and down for t < 0 |
| TotalXp.TotalXP | script.js:158-165 | calculateTotalXP: the result is the module XP plus 70000, in KB, to within half a KB; ModuleXpInsert, UncountedEntryIgnored, CountedEntryAdds and TotalXpMonotone state how each entry moves it |
| TotalXp.ModuleXpInsert | script.js:160-162 | inserting an entry anywhere changes the module sum by its amount exactly when the regex accepts its path, and by nothing otherwise |
| TotalXp.RoundMonotone | script.js:164 | rounding to whole KB is monotone |
| TotalXp.UncountedEntryIgnored | script.js:159-164 | an entry the regex rejects leaves the total unchanged, wherever it is inserted |
| TotalXp.PiscineEntryIgnored | script.js:159-164 | an entry whose every "module" occurrence is immediately followed by "/piscine" (any case) leaves the total unchanged; a path with no "module" at all is a special case |
| TotalXp.CountedEntryAdds | script.js:159-164 | an entry with one occurrence of "module" that escapes the lookahead adds its full amount before rounding |
| TotalXp.TotalXpMonotone | script.js:160-164 | adding an entry with a non-negative amount never lowers the total |
| TotalXp.TotalXpOfNothing | script.js:164 | no entries give 70 |
| TotalXp.TotalXpOfOneModule | script.js:158-164 | one "module-1" entry of 1000 gives 71 |
| TotalXp.LookaheadIsPerOccurrence | script.js:159 | "Module/Piscine/module" contains "module/piscine" and is still counted: 500 XP gives 71 |
| Skills.SkillOf | script.js:239-242 | a transaction names a skill exactly when its type is "skill_" followed by one of go, html, js, sql, css, and the skill is that suffix |
| Skills.Record | script.js:243 | an existing key keeps its place and takes the larger of its value and the amount; a new key is appended with max(0, amount); no other entry changes |
| Skills.RecordNames | script.js:243 | recording keeps the keys in place, and appends the skill at the end exactly when it was not a key yet |
| Skills.RecordDistinct | script.js:243 | recording never makes a key occur twice |
| Skills.RecordNew | script.js:243 | a skill that is not a key yet is appended with max(0, amount) and the other entries stay as they were |
| Skills.RecordExisting | script.js:243 | a skill that is already a key only raises that entry, in place, to the larger of its value and the amount |
| Skills.Step | script.js:239-245 | one reduce step keeps the keys distinct; a transaction that names no known skill, or one already recorded, leaves the keys as they were, and a new known skill is appended as the last key |
| Skills.SkillMaxima | script.js:238-246 | the accumulated object never holds a key twice |
| Skills.Best | script.js:243 | reference value: at least 0 and at least every amount reported for the skill, and equal to 0 or to one of those amounts |
| Skills.SkillNames | script.js:261 | `Object.keys`: one name per entry, each the entry's skill, in order |
| Skills.Values | script.js:260-262 | `Object.values`: one value per entry, each the entry's best amount, in order |
| Skills.Total | script.js:260 | no contract of its own: the left-fold sum from 0; TotalBounds states that each value is at most the total and that the total is 0 exactly when every value is 0 |
| Skills.SkillMaximaCorrect | script.js:238-246 | the keys are exactly the reported known skills, each value is the reference maximum (not a sum), and the keys are in order of first report |
| Skills.IgnoredTransaction | script.js:239-242 | a transaction that names no known skill changes neither the maxima nor the chart, wherever it stands |
| Skills.AtMostFiveSkills | script.js:236-246 | the object never has more keys than the five known skills |
| Skills.NoDataIffNoSkill | script.js:255-258 | "No data available" is shown exactly when no transaction names a known skill |
| Skills.PieLabels | script.js:261-262 | labels are the reported skills, each once, in order of first report, at most five, and there is one slice per label |
| Skills.ShareOf | script.js:262 | a slice is NaN exactly when the total is 0; otherwise it is a percentage in [0, 100] |
| Skills.Shares | script.js:262 | the `map` over the values: one slice per value, each that value's share of the total |
| Skills.PieChart | script.js:255-262 | "No data available" exactly when no key was recorded; otherwise the labels are the recorded keys with one slice each; NoDataIffNoSkill, PieLabels, SharesOfPositiveTotal and ZeroTotalGivesNaN state the rest |
| Skills.TotalBounds | script.js:260 | with non-negative values, each value is at most the total, and the total is 0 exactly when every value is 0 |
| Skills.SharesMakeHundred | script.js:260-262 | over a positive total every slice is a percentage, and the slices sum to exactly 100 |
| Skills.SharesOfPositiveTotal | script.js:260-262 | over a positive total each slice lies in [0, 100], is its own skill's best amount as a share of the total, and the slices make 100 |
| Skills.ZeroTotalGivesNaN | script.js:255-262 | when skills are reported but every reported amount is at most 0, the chart is drawn and every slice is NaN |
| Skills.AppendNewSkill | script.js:238-246 | a later transaction naming a skill not yet recorded appends that skill with max(0, amount) |
| Skills.AppendKnownSkill | script.js:238-246 | a later transaction naming a recorded skill raises that entry in place to the larger amount and changes nothing else |
| Skills.MaxNotSum | script.js:243 | go 50 then go 30, plus html 50, give labels go and html at 50% each |
| Token.Split | script.js:37 | split gives at least one part, and no part contains the separator |
| Token.SplitCount | script.js:37 | split gives one more part than there are separators |
| Token.JoinSplit | script.js:37 | joining the parts of a split with the separator restores the string |
| Token.SplitJoin | script.js:37 | separator-free parts, joined and split again, come back unchanged |
| Token.WellFormed | script.js:37 | the reply is accepted exactly when it is non-empty and has exactly two dots |
| Token.AcceptedHasThreeSegments | script.js:37 | an accepted reply is three dot-free segments joined by dots |
| Token.ThreeSegmentsAccepted | script.js:37 | any three dot-free segments joined by dots are accepted, empty segments included |
| Token.ShapeExamples | script.js:37 | ".." is accepted; "", "a.b" and "a.b.c.d" are rejected |
| BarChart.ChartSeries | script.js:175 | one point per transaction, in order, carrying its timestamp and amount |
| BarChart.ChartSeriesAppend | script.js:175 | the series of two concatenated histories is the concatenation of their series |
| Session.Page.Login | script.js:37-46 | an accepted reply stores "jwt" and "username" and opens the profile screen; otherwise storage and screen are unchanged and "Invalid login credentials" is shown; the session invariant is kept |
| Session.Accepts | script.js:37 | a sign-in reply is stored exactly when the request succeeded and its body is non-empty with exactly two dots |
| Session.MetricsOf | script.js:120-128 | no contract of its own: the three figures the profile screen renders from a fetched user, namely TotalXP of its XP entries, PieChart and ChartSeries of its transactions |
| Session.Page.ReceiveProfile | script.js:114-136 | a fetched user overwrites "username" with its login and renders its total XP, pie data and bar series; a missing user shows "Failed to fetch user data."; the screen is untouched and the invariant is kept |
| Session.Page.Logout | script.js:312-316 | storage is emptied and the login screen shows, whatever the state before |
| Session.Page.PageStart | script.js:328-332 | on page start storage is emptied and the login screen shows, whatever was persisted |
| Session.SignIn | script.js:37-46 | after page start, an accepted login shows the profile screen holding exactly the token and the username, and the session invariant holds |
| Session.Visit | script.js:326-332 | page start, an accepted login, a fetched profile and a logout leave storage empty on the login screen, with the session invariant holding at each step |

## Left out

- Network calls: both GraphQL requests, the sign-in request and its Basic credentials (`btoa`). The sign-in outcome is an `AuthReply` argument and the fetched user is an `Option<UserProfile>` argument.
- Sign-in replies that are not strings (objects, numbers) are not modelled. `AuthReply` carries a string body only.
- The order of asynchronous events is not modelled. `ReceiveProfile` may arrive in any state, including after a logout, which is what a late fetch does in the source.
- The welcome message, `renderProfile` (ID, login, audit and group counts, `auditRatio.toFixed(1)`) and the other `innerHTML` writes are DOM output. They hold no logic beyond string interpolation.
- D3 and Chart.js drawing are not modelled. That covers the scales, axes, bar geometry, colours and clearing of old charts.
- `Skills.ShareOf`: `toFixed(2)` is not modelled. Percentages are exact reals rather than rounded IEEE-754 strings, so the sum is exactly 100 instead of approximately 100.
- `TotalXp.RoundThousandths`: floating-point division is not modelled. It is exact integer rounding. That agrees with `toFixed(0)` for integer sums below about 10^15 in magnitude, but not for magnitudes where doubles lose integer precision or `toFixed` switches to exponent notation (10^21 and above). When the module XP plus 70000 lies between -499 and -1, `toFixed(0)` gives the text "-0", which the page shows as "XP: -0 KB"; the model gives the integer 0.
- `BarChart.ChartSeries`: `new Date(createdAt)` parsing is not modelled. The date stays the timestamp text.
- Malformed records are not modelled; here every record is well typed. In the source the three missing fields behave differently:
  - a missing `path` is tested as the text "undefined", which never matches, so the entry is silently dropped from the total;
  - a missing `amount` turns the module sum into NaN, so the page shows "XP: NaN KB", and a skill transaction without one stores NaN through `Math.max`;
  - a missing `type` makes `startsWith` throw in `createPieChart`, so the fetch error message is shown after the username and the total XP have already been written.
- `Session.Page.constructor` takes the persisted storage and the screen the markup shows first as arguments. The HTML markup is not part of this model.
