# Battle rule engine

A model of the rule engine of a turn-based battle simulator. Two sides, red
and blue, are set out as blocks of units. Each unit has a role: warrior,
general, healer, marksman, guard or flagger. In every tick each
scheduled unit takes one turn by its role's policy. The turn may attack,
heal, encourage, shoot precisely, protect a ward or move. Then a two-phase
morale pass runs: every survivor's allies' average morale is taken first,
then every unit's morale is updated. A unit whose hp or morale falls to the
threshold dies: it is marked dead and leaves the schedule, but it stays in
the space. A dying general or flagger takes morale from its listed soldiers.
A dying guard releases its ward.

The modules follow the program:

- `Params` holds the constants and the three morale modifier formulas.
- `Unit` is the unit record. There is one record type with a role tag and a
  side, in place of the Red/Blue class pairs. It also holds the stats each
  role is created with.
- `Tables` is the state the rules act on. This is the roster, where a
  unit's handle is its position, together with the schedule of live
  handles. It also states the invariant every transition keeps: references
  are in range, the schedule holds exactly the live units once each, and
  every protected unit is warded by a live guard that chose it.
- `Scans` covers the neighbour filters, the marksman's priority scan and
  the guard's candidate filter and ward draw.
- `Rules` covers death, damage, healing, courage, precise shots,
  protection and the morale update, as functions on the table.
- `Policies` has each role's turn as a function from the table, the turn's
  neighbour lists and its draws to the new table and what the unit did.
- `Layout` is the spawner's role and army layout, the roster it creates
  and the linking of leaders to their soldiers.
- `Warriors.World` is the roster and schedule as an object. Its methods
  change units in place, as the agents do. Each method is proved to leave
  exactly the state the functions of `Rules` and `Policies` describe.
- `Battle` has the tick as functions and the class `BattleModel`. That
  class carries `__init__`, `spawner`, `spawn` and `step` out imperatively
  over a `World` and is proved equal to those functions.

Units refer to one another (guarder, guarded ally, soldiers) by handle. A
unit's id is its handle plus one, since ids start at 1 in creation order.

These oddities of the code are modelled as it behaves:

- The guard's filter removes guards from the list it iterates over, so
  the element after each removed guard is skipped. In particular, a guard
  directly after a removed guard survives; of three guards in a row, the
  first and third are removed and the second stays.
- A guard that finds every candidate already protected fights (or moves)
  and returns without counting its turn.
- The received-damage morale term is max(x²/hp, x): the square of the
  damage over the hp when the damage exceeds the hp, the damage itself
  otherwise.
- A dying leader takes 10 morale per listing from every listed soldier,
  dead or alive.
- `update_morale` rescales the attack damage even after the unit fled.
- A protected unit that dies stays warded until its guard's next turn,
  because plain `die` does not release the guard.
- Dead units stay in the roster; scans filter them through the `dead` type.
- The linking loop runs at the end of each spawner call
  (battle_model.py:61-69), so after the blue call it relinks the red
  leaders too, and red generals and flaggers list each subordinate twice.
- The apply phase of the morale pass reads each unit's current morale, so
  a leader fleeing early in the pass lowers the new morale of its soldiers
  visited later in the pass.
- Red flaggers take the blue movement speed.

Hp and morale are `real`, so the formulas hold exactly. Float rounding is
not modelled.

## Model

| member | source | states |
|---|---|---|
| Params.KillMoraleModifier | simulation_parameters.py:26-29 | the kill term is positive exactly when the unit killed this turn, and then it is 1.5; it is never negative |
| Params.DamageInflictedMoraleModifier | simulation_parameters.py:31-32 | the inflicted-damage term is the damage dealt itself |
| Params.DamageReceivedMoraleModifier | simulation_parameters.py:34-35 | the received-damage term is the larger of the damage and its square over the initial hp: at least each of them and equal to one of them |
| Params.ReceivedModifierLinear | simulation_parameters.py:34-35 | for positive hp and damage between 0 and the hp the term is the damage |
| Params.ReceivedModifierQuadratic | simulation_parameters.py:34-35 | from the hp on the term is damage squared over hp |
| Params.ModifiersNonNegative | simulation_parameters.py:26-35 | with non-negative inputs none of the three modifiers is negative |
| Unit.NewUnit | warrior_agent.py:11-29 | a new unit is alive with full hp, and its hp, morale, attack damage, attack range and speed are its role's baselines; counter 1, clear trackers, unprotected, its own guarder and ward, no soldiers; it has a heal amount of 2 exactly when it is a healer and the success chance exactly when it is a marksman |
| Unit.RoleHp | warrior_agent.py:224-931 | starting hp: 100 for warriors and flaggers, 300 for generals, 120 for healers, 60 for marksmen, 600 for guards |
| Unit.RoleDamage | warrior_agent.py:224-931 | starting attack damage: 3 warrior, 7.5 general, 0.9 healer, 2.4 marksman, 1.2 guard, 2.7 flagger |
| Unit.RoleMorale | warrior_agent.py:224-931 | warriors and generals start at morale 8, every other role at 10 |
| Unit.RoleAttackRange | warrior_agent.py:224-931 | attack range 2.4 for generals, 6 for marksmen, 0.8 for guards, 2 otherwise |
| Unit.RoleSpeed | warrior_agent.py:224-931 | speed 0.72 for generals, 1.04 for marksmen, 0.88 for flaggers of both sides, 0.8 otherwise |
| Unit.TagOf | warrior_agent.py:209-219 | a unit's type is `dead` exactly when it is dead, and otherwise its side |
| Tables.Without | warrior_agent.py:51 | removing from the schedule keeps exactly the other handles and keeps them distinct |
| Tables.WithoutScheduled | warrior_agent.py:47-51 | removing a unit that just died, when no other dead flag changed, restores the schedule invariant |
| Scans.Allies | warrior_agent.py:119-125 | the allies are exactly the neighbours whose type equals the scanner's, each listed once if the neighbours are |
| Scans.Enemies | warrior_agent.py:127-133 | the enemies are exactly the neighbours whose type differs from the scanner's and is not dead |
| Scans.SameArmy | warrior_agent.py:882-885 | the flagger's mates are exactly the listed allies with its army label |
| Scans.AllyAverage | warrior_agent.py:192-196 | the allies' average is 0 when no neighbour is an ally; `Scans.AverageWithinAllies` bounds it otherwise |
| Scans.AverageWithinAllies | warrior_agent.py:192-196 | the allies' average is 0 without allies, and otherwise lies between any lower and upper bound of their morale |
| Scans.FirstPriority | warrior_agent.py:576-592 | the result is the first position in scan order whose role is general, flagger, healer or marksman; none exactly when no enemy has such a role |
| Scans.DropGuards | warrior_agent.py:703-705 | the filtered candidates are roster handles; which of them survive is stated by `Scans.DropGuardsFacts` and `Scans.DropGuardsRule` |
| Scans.DropGuardsFacts | warrior_agent.py:703-705 | the filtered candidates come from the input list, every non-guard survives the filter, and distinct lists stay distinct |
| Scans.DropGuardsRule | warrior_agent.py:703-705 | in a list without repeats, a candidate survives the filter exactly when it is not a guard or the candidate before it was removed |
| Scans.GuardAfterGuardStays | warrior_agent.py:703-705 | of two guards at the head of the list the first is removed and the second survives, because of the skip |
| Scans.Draw | warrior_agent.py:708-721 | each draw of the guard's `random.choice` is one of the injected draws, or 0 once they run out |
| Scans.ChooseWard | warrior_agent.py:707-723 | a chosen ward is a candidate that is not protected; there is none exactly when every candidate is protected |
| Rules.ShiftAll | warrior_agent.py:325-326 | a morale loop over a list moves each unit's morale by the step once per listing and changes nothing else |
| Rules.MoraleShifted | warrior_agent.py:325-326 | the morale loop over a list keeps the roster size; `Rules.ShiftAll` gives its effect |
| Rules.Penalty | warrior_agent.py:325-326 | defines the morale a unit loses when a general or flagger dies: 10 per listing among its soldiers, nothing for other roles; `Layout.PenaltyOfList` evaluates it on the linked lists |
| Rules.DeathEffects | warrior_agent.py:321-329 | the role part of a death keeps the roster size; `Rules.LeaderEffects`, `Rules.GuardEffects`, `Rules.PlainEffects` and `Rules.DeathEffectsTouch` state what it does by role |
| Rules.LeaderEffects | warrior_agent.py:321-329 | a dying general or flagger is marked dead, and every unit, dead or alive, loses 10 morale per listing; nothing else changes |
| Rules.GuardEffects | warrior_agent.py:754-760 | a dying guard is marked dead and stops guarding, its ward becomes unprotected, and no other unit changes |
| Rules.PlainEffects | warrior_agent.py:47-51 | a plain death changes only the dying unit's dead flag |
| Rules.DeathEffectsTouch | warrior_agent.py:47-51 | any death marks the unit dead, changes others only in morale (by the leader penalty) and in protection flags that it only clears, and kills nobody else |
| Rules.DeathEffectsProtection | warrior_agent.py:754-760 | the death of a live unit keeps every protected unit warded by a live guard that chose it |
| Rules.Died | warrior_agent.py:47-51 | a death is the role effects on the roster plus the unit's removal from the schedule, and the roster stays linked |
| Rules.DiedWellFormed | warrior_agent.py:47-51 | a death keeps the whole invariant and the schedule loses exactly that unit |
| Rules.Struck | warrior_agent.py:78-81 | a blow keeps the roster linked and its size; `Rules.StruckOutcome` states who dies and what changes |
| Rules.StruckOutcome | warrior_agent.py:78-81 | after a blow the unit is killed exactly when its new hp is at most 0; a killed unit leaves the schedule; other units change only as its death changes them |
| Rules.DamageReceived | warrior_agent.py:65-81 | the damage rule keeps the roster linked and its size; `Rules.UnprotectedDamage` and `Rules.ProtectedDamage` state its two branches |
| Rules.AllyDamageReceived | warrior_agent.py:742-752 | the guard's hit for its ward keeps the roster linked and its size; `Rules.ProtectedDamage` states its effect |
| Rules.PreciseDamageReceived | warrior_agent.py:83-93 | the precise-damage rule keeps the roster linked and its size; `Rules.PreciseDamage` states its effect |
| Rules.UnprotectedDamage | warrior_agent.py:72-81 | an unprotected unit loses exactly the damage in hp and adds it to its received damage; the result is true exactly when the new hp is at most 0, and then the unit is dead and unscheduled; no other unit's hp changes |
| Rules.ProtectedDamage | warrior_agent.py:66-71 | a protected unit keeps its hp and received damage and stays alive; its guarder loses the damage in hp without it being counted as received; the result says whether the guarder died |
| Rules.DamageWellFormed | warrior_agent.py:65-81 | damage to a live unit, redirected or not, keeps the invariant |
| Rules.AllyDamageWellFormed | warrior_agent.py:742-752 | damage taken for a ward keeps the invariant |
| Rules.PreciseDamage | warrior_agent.py:83-93 | a precise hit ignores protection: hp down by the damage, received damage up by it, morale down 0.05, dead exactly when the new hp is at most 0; no other unit's hp changes |
| Rules.PreciseDamageWellFormed | warrior_agent.py:83-93 | a precise hit keeps the invariant |
| Rules.Attacked | warrior_agent.py:53-62 | an attack keeps the roster linked and its size; `Rules.AttackOutcome` states its effect |
| Rules.AttackOutcome | warrior_agent.py:53-62 | an attack applies the target's damage rule, records the attack damage as inflicted, and sets the kill flag exactly when it was set or the blow killed |
| Rules.AttackWellFormed | warrior_agent.py:53-62 | an attack on a live unit keeps the invariant |
| Rules.Healed | warrior_agent.py:442-450 | a heal keeps the roster linked, its size and the schedule; `Rules.HealCapped` states the new hp |
| Rules.HealCapped | warrior_agent.py:442-450 | healing sets the ally's hp to min(hp + heal amount, initial hp), never above the initial hp, and changes nothing else |
| Rules.HealedAll | warrior_agent.py:461-463 | the healing loop keeps the roster linked, its size and the schedule; `Rules.HealsOnlyDamaged` states whom it heals |
| Rules.HealsOnlyDamaged | warrior_agent.py:461-463 | healing a list of distinct allies heals exactly the listed damaged ones, each capped at initial hp, and no other unit or field |
| Rules.HealWellFormed | warrior_agent.py:461-463 | healing keeps the invariant |
| Rules.Encouraged | warrior_agent.py:897-903 | courage raises each unit's morale by 0.5 per listing and changes nothing else |
| Rules.EncouragedWellFormed | warrior_agent.py:897-903 | courage keeps the invariant |
| Rules.PreciseAttacked | warrior_agent.py:601-613 | a precise attack keeps the roster linked and its size; `Rules.PreciseHitTarget`, `Rules.PreciseHitMarksman` and `Rules.PreciseMiss` state its branches |
| Rules.Aimed | warrior_agent.py:604-607 | the marksman's gain before its hit lands keeps the roster linked, its size and the schedule |
| Rules.PreciseHit | warrior_agent.py:604-610 | a hit keeps the roster linked and its size; `Rules.PreciseHitTarget` and `Rules.PreciseHitMarksman` state its effect |
| Rules.PreciseHitTarget | warrior_agent.py:604-609 | a successful shot takes the attack damage from the target's hp and 0.05 from its morale, and kills it exactly when the new hp is at most 0 |
| Rules.PreciseHitMarksman | warrior_agent.py:604-609 | after a successful shot the marksman's morale is up 0.05, it records the attack damage as inflicted, and its kill flag is set exactly when it was set or the target died |
| Rules.PreciseMiss | warrior_agent.py:611-613 | a missed shot costs the marksman 0.1 morale, records no damage inflicted and changes nothing else |
| Rules.PreciseAttackWellFormed | warrior_agent.py:601-613 | a precise attack on a live unit keeps the invariant |
| Rules.ClearWard | warrior_agent.py:697-699 | the clear keeps the roster linked, its size and the schedule, and leaves the guard warding itself and not guarding |
| Rules.ClearWardKeeps | warrior_agent.py:697-699 | the clear at the start of a guard's turn keeps the invariant, leaves no unit naming the guard as guarder and unprotects its former ward |
| Rules.Protected | warrior_agent.py:734-740 | protecting keeps the roster linked, its size and the schedule; `Rules.ProtectKeepsProtection` states its effect |
| Rules.ProtectKeepsProtection | warrior_agent.py:734-740 | protecting another unit, when no unit names the guard as guarder, keeps the invariant; the ward is protected and warded by the guard; no third unit changes |
| Rules.OwnModifier | warrior_agent.py:160-162 | with non-negative trackers the own modifier is at least the damage received plus the damage inflicted |
| Rules.NewMorale | warrior_agent.py:198-202 | defines the new morale as the allies' average weighted 0.2 plus own modifier and current morale weighted 0.8; `Rules.NewMoraleConvex` and `Rules.OwnModifierNeverLowers` state its bounds |
| Rules.NewMoraleConvex | warrior_agent.py:198-202 | the new morale lies between the allies' average and the own modifier plus current morale |
| Rules.OwnModifierNeverLowers | warrior_agent.py:198-202 | with non-negative trackers the new morale is at least the weighted mix of the allies' average and the current morale |
| Rules.Cleared | warrior_agent.py:174-175 | clearing the trackers and setting the morale keeps the references, role, dead and protected flags |
| Rules.Rescaled | warrior_agent.py:184-185 | rescaling the damage keeps the references, role, dead and protected flags |
| Rules.MoraleUpdated | warrior_agent.py:173-178 | a morale update keeps the roster linked and its size; `Rules.MoraleUpdateOutcome` and `Rules.MoraleUpdateFrame` state its effect |
| Rules.MoraleUpdateOutcome | warrior_agent.py:173-190 | after a morale update the trackers are clear, the morale is the new one, the unit is dead and unscheduled exactly when that morale is at most 2.0, its attack damage (a healer's heal amount too) is the initial one scaled by the morale even after fleeing, and its hp is unchanged |
| Rules.MoraleUpdateFrame | warrior_agent.py:173-182 | a morale update changes other units only by the morale a fleeing leader takes and by protection flags |
| Rules.MoraleUpdatedWellFormed | warrior_agent.py:173-178 | a morale update of a live unit keeps the invariant |
| Rules.FleeSeenLaterInPass | battle_model.py:115-116 | when the first unit of the pass flees, the second one's new morale is computed from its morale after the flee's penalty |
| Rules.Applied | battle_model.py:115-116 | the apply phase keeps the roster linked and its size; `Rules.AppliedFrame` and the lemmas after it state its effect |
| Rules.AppliedFrame | battle_model.py:115-116 | units the apply phase does not visit change only in morale and protection flags and stay alive or dead |
| Rules.AppliedWellFormed | battle_model.py:115-116 | the apply phase over distinct live units keeps the invariant |
| Rules.MoralePassKeepsHp | battle_model.py:115-116 | the apply phase changes no unit's hp |
| Rules.MoralePassClearsTrackers | battle_model.py:115-116 | every unit the apply phase visits ends with its three trackers clear |
| Policies.Fight | warrior_agent.py:38-43 | the unit attacks exactly when there is an enemy in attack range, and the target is one of them; otherwise it moves and nothing changes |
| Policies.Bumped | warrior_agent.py:45 | counting a turn raises exactly that unit's counter by one and keeps the schedule |
| Policies.WarriorTurn | warrior_agent.py:31-45 | a warrior strikes exactly when an enemy is in attack range, and then one of them, with the turn counted on the attacked table; otherwise it moves and only its counter changes |
| Policies.GeneralTurn | warrior_agent.py:267-304 | the general notes whether a healer is in healing range, and goes to a healer exactly when its hp is under a quarter of its initial hp, no healer is that close and one is in flocking range; otherwise its action is that of fighting (a strike at a drawn enemy in range, or a move) |
| Policies.HealerTurn | warrior_agent.py:452-473 | the healer heals and moves exactly when it has allies in healing range, and otherwise fights |
| Policies.MarksmanTurn | warrior_agent.py:571-599 | the marksman moves exactly when no enemy is in range; it shoots precisely exactly when some enemy has a priority role, and then at the first such enemy in scan order; it attacks normally exactly when enemies exist and none has a priority role |
| Policies.MarksmanShotOnly | warrior_agent.py:576-597 | a precise shot replaces the normal attack: the new table is the precise attack's (or the attack's, or the unchanged one) with the turn counted |
| Policies.HealerHealsOnlyDamaged | warrior_agent.py:459-464 | with allies in range the healer heals exactly the damaged ones, each capped at initial hp, changes no other unit and only counts its own turn |
| Policies.GuardProtects | warrior_agent.py:707-723 | a ward the guard takes is an ally in guarding range other than itself, unprotected unless it was its own former ward, and is now protected and warded by this guard; the turn is counted |
| Policies.GuardTurn | warrior_agent.py:700-728 | the guard takes a ward exactly when candidates remain after the filter, an enemy is close and some candidate is unprotected; otherwise its action is that of fighting from the cleared table |
| Policies.GuardGivesUpSkipsCounter | warrior_agent.py:711-720 | when every candidate is protected the guard fights or moves and its counter does not go up |
| Policies.GuardTurnWellFormed | warrior_agent.py:696-732 | a guard's turn keeps the protection invariant |
| Policies.GeneralTurnWellFormed | warrior_agent.py:267-304 | a general's turn keeps the invariant |
| Policies.HealerTurnWellFormed | warrior_agent.py:452-473 | a healer's turn keeps the invariant |
| Policies.MarksmanTurnWellFormed | warrior_agent.py:571-599 | a marksman's turn keeps the invariant |
| Policies.FlaggerTurnWellFormed | warrior_agent.py:874-895 | a flagger's turn keeps the invariant |
| Policies.TurnWellFormed | warrior_agent.py:31-45 | every turn of a live unit keeps the invariant |
| Policies.WarriorCounted | warrior_agent.py:31-45 | a warrior's turn raises its counter by one |
| Policies.GeneralCounted | warrior_agent.py:267-304 | a general's turn raises its counter by one |
| Policies.HealerCounted | warrior_agent.py:452-473 | a healer's turn raises its counter by one |
| Policies.MarksmanCounted | warrior_agent.py:571-599 | a marksman's turn raises its counter by one |
| Policies.FlaggerCounted | warrior_agent.py:874-895 | a flagger's turn raises its counter by one |
| Policies.GuardCounted | warrior_agent.py:696-732 | a guard's turn raises its counter by one unless it gave up because every candidate was protected |
| Policies.TurnCounted | warrior_agent.py:31-45 | every turn except the guard's early return raises the counter by exactly one |
| Policies.HeartenedOnce | warrior_agent.py:881-887 | the flagger never encourages itself; each ally of its army in range gains 0.5 morale once and nobody else changes |
| Policies.FlaggerEncourages | warrior_agent.py:874-895 | without enemies in range the flagger raises each ally of its army in courage range by 0.5 morale, moves, changes no other unit and counts its turn |
| Policies.FlaggerQuiet | warrior_agent.py:888-895 | without enemies in range courage does not make the flagger see one; its turn is courage, a move and the count |
| Policies.FlaggerFights | warrior_agent.py:888-895 | the flagger strikes exactly when an enemy is in attack range before its courage step, and then one of them, on the heartened table with the turn counted; otherwise it moves on the heartened table with the turn counted |
| Policies.FlaggerTurn | warrior_agent.py:874-895 | a flagger's turn keeps the roster linked and its size; `Policies.FlaggerFights` and `Policies.FlaggerEncourages` state its effect |
| Policies.Heartened | warrior_agent.py:881-887 | the courage step keeps the roster linked, its size and the schedule; `Policies.HeartenedOnce` states whom it encourages |
| Policies.TurnOf | warrior_agent.py:31-45 | a turn, dispatched by role, keeps the roster linked and its size; each role's turn states its own branches |
| Layout.SubtypeRule | battle_model.py:40-56 | guard exactly in column 0 at rows 1 and 3 modulo 5, general exactly in column 1 at row 2 modulo 5, healer, marksman and flagger exactly in column 2 at rows {1,3}, {0,4} and 2 modulo 5, warrior everywhere else |
| Layout.SubtypeAt | battle_model.py:40-56 | columns after the third hold only warriors; guards stand only in column 0, generals only in column 1, healers, marksmen and flaggers only in column 2 |
| Layout.SubtypePeriodic | battle_model.py:40-56 | the layout repeats every five rows |
| Layout.SquadBlock | battle_model.py:35 | rows b·rows to b·rows + rows − 1 form squad b |
| Layout.Squad | battle_model.py:35 | the squad number b of row j is the one with b·rows ≤ j < b·rows + rows, that is floor(j / rows) |
| Layout.ArmyBlocks | battle_model.py:35 | two rows share an army label exactly when they lie in the same block of rows |
| Layout.SquadBelow | battle_model.py:31-35 | every squad number of a side is below its number of squads |
| Layout.Column | battle_model.py:32-59 | a column of n cells holds n units |
| Layout.Columns | battle_model.py:31-59 | defines the block one spawner call appends, column after column; `Layout.ColumnsSize`, `Layout.ColumnsAt` and `Layout.ColumnsFresh` state its shape |
| Layout.ColumnsSize | battle_model.py:31-32 | a block of cols columns of per cells each (per = rows·squad in the spawner) holds cols·per units |
| Layout.ColumnsAt | battle_model.py:31-59 | the unit for cell (i, j) is number i·per + j of its block (per = rows·squad cells per column), with the role and army of that cell and the next id |
| Layout.ColumnsFresh | battle_model.py:74-104 | every spawned unit is of its side, alive, unprotected, its own guarder and ward, unlinked, with id one more than its handle |
| Layout.Subordinates | battle_model.py:63-69 | defines the units a leader takes as soldiers, in roster order; `Layout.SubordinatesFacts` states which they are |
| Layout.Link | battle_model.py:61-69 | linking keeps the roster size and gives every unit its linked form: a general or flagger with its subordinates appended, every other unit unchanged |
| Layout.SubordinatesFacts | battle_model.py:61-69 | a leader's subordinates are exactly the units of its army whose role differs from its own, each listed once |
| Layout.SubordinatesByLabels | battle_model.py:61-69 | the subordinates depend only on roles and army labels |
| Layout.LinkKeepsLabels | battle_model.py:61-69 | linking changes soldier lists only |
| Layout.LinkedLeader | battle_model.py:61-69 | one linking pass gives a leader without soldiers exactly its subordinates |
| Layout.RelinkedLeader | battle_model.py:61-69 | linking, appending units of other armies and linking again leaves a leader of the first part with its subordinates listed twice |
| Layout.Roster | battle_model.py:15-28 | defines the roster after both spawner calls; `Layout.RosterFresh` states its shape |
| Layout.Initial | battle_model.py:15-28 | defines the table after setup; `Layout.InitialWellFormed` states that it satisfies the invariant |
| Layout.RosterFresh | battle_model.py:15-28 | after setup the red units come first, then the blue ones, cols·rows·squad of each; each unit's id is its handle plus one, it is alive and unprotected, and its soldiers are other roster units |
| Layout.InitialWellFormed | battle_model.py:15-28 | the table after setup satisfies the invariant |
| Layout.PenaltyOfList | warrior_agent.py:325-326 | a leader listing its distinct subordinates once or twice costs each of them 10 or 20 morale on its death and nobody else anything |
| Layout.RedLeaderListsTwice | battle_model.py:27-28 | a red general or flagger lists each red subordinate twice, so its death costs each of them 20 morale |
| Layout.BlueLeaderListsOnce | battle_model.py:27-28 | a blue general or flagger lists each subordinate once, all of them blue, so its death costs each of them 10 morale |
| Warriors.World.ScanForAllies | warrior_agent.py:119-125 | the loop returns the allies filter of the neighbours |
| Warriors.World.ScanForEnemies | warrior_agent.py:127-133 | the loop returns the enemies filter of the neighbours |
| Warriors.World.AnyHealer | warrior_agent.py:272-275 | the loop finds a healer exactly when one is listed |
| Warriors.World.AverageMoraleOfAllies | warrior_agent.py:192-196 | the loop returns the allies' average morale, 0 without allies |
| Warriors.World.Die | warrior_agent.py:47-51 | the in-place death leaves the state of the death rule |
| Warriors.World.ReceiveAllyDamage | warrior_agent.py:742-752 | the guard's hit for its ward leaves the state and result of that rule |
| Warriors.World.ReceiveDamage | warrior_agent.py:65-81 | the in-place damage leaves the state and result of the damage rule |
| Warriors.World.ReceivePreciseDamage | warrior_agent.py:83-93 | the in-place precise hit leaves the state and result of that rule |
| Warriors.World.Attack | warrior_agent.py:53-62 | the in-place attack leaves the state of the attack rule |
| Warriors.World.Heal | warrior_agent.py:442-450 | the in-place heal leaves the state of the heal rule |
| Warriors.World.Courage | warrior_agent.py:897-903 | the courage loop leaves the state of the courage rule |
| Warriors.World.PreciseAttack | warrior_agent.py:601-613 | the in-place precise attack leaves the state of that rule |
| Warriors.World.Protect | warrior_agent.py:734-740 | the in-place protection leaves the state of that rule |
| Warriors.World.ClearRecentEventTrackers | warrior_agent.py:187-190 | clears exactly the unit's three trackers |
| Warriors.World.AdjustDamage | warrior_agent.py:184-185 | rescales exactly the unit's attack damage (and a healer's heal amount) |
| Warriors.World.UpdateMorale | warrior_agent.py:173-178 | the in-place morale update leaves the state of that rule |
| Warriors.World.CountTurn | warrior_agent.py:45 | raises exactly the unit's counter by one |
| Warriors.World.Fight | warrior_agent.py:38-43 | the in-place fight leaves the state and action of the fight branch |
| Warriors.World.WarriorStep | warrior_agent.py:31-45 | the in-place turn leaves the state and action of the warrior policy |
| Warriors.World.GeneralStep | warrior_agent.py:267-304 | the in-place turn leaves the state and action of the general policy |
| Warriors.World.HealAll | warrior_agent.py:461-463 | the healing loop leaves the state of the healing rule over the list |
| Warriors.World.HealerStep | warrior_agent.py:452-473 | the in-place turn leaves the state and action of the healer policy |
| Warriors.World.FindPriority | warrior_agent.py:576-592 | the loop finds the first priority target of the scan |
| Warriors.World.MarksmanStep | warrior_agent.py:571-599 | the in-place turn leaves the state and action of the marksman policy |
| Warriors.World.DropGuardsFrom | warrior_agent.py:703-705 | the remove-while-iterating loop returns the filter with its skip |
| Warriors.World.PickWard | warrior_agent.py:707-721 | the retry loop returns the ward choice for the draws |
| Warriors.World.GuardStep | warrior_agent.py:696-732 | the in-place turn, early return included, leaves the state and action of the guard policy |
| Warriors.World.OwnArmy | warrior_agent.py:882-885 | the loop returns the listed allies of the flagger's army |
| Warriors.World.FlaggerStep | warrior_agent.py:874-895 | the in-place turn leaves the state and action of the flagger policy |
| Warriors.World.Step | warrior_agent.py:31-45 | each unit's turn follows the policy of its role |
| Warriors.World.Add | battle_model.py:101 | the new unit gets the next handle and is scheduled |
| Warriors.World.AppendSubordinates | battle_model.py:63-69 | a leader's inner loop appends exactly its subordinates, in roster order, and changes nothing else |
| Warriors.World.LinkLeaders | battle_model.py:61-69 | the linking loop leaves the linked roster |
| Battle.Activated | battle_model.py:109 | the activation pass keeps the roster linked and its size; `Battle.ActivatedWellFormed` states that it keeps the invariant |
| Battle.ActivatedWellFormed | battle_model.py:109 | the activation pass keeps the invariant |
| Battle.TickWellFormed | battle_model.py:108-116 | a whole tick keeps the invariant |
| Battle.Ticked | battle_model.py:108-116 | a tick keeps the roster size; `Battle.TickWellFormed` states that it keeps the invariant |
| Battle.MoralePass | battle_model.py:111-116 | the morale pass keeps the roster linked and its size; `Battle.MoralePassOutcome` states its effect |
| Battle.MoralePassOutcome | battle_model.py:111-116 | the morale pass keeps the invariant, changes no hp and clears the trackers of every unit scheduled at its start |
| Battle.Snapshot | battle_model.py:111-113 | the snapshot holds one average per scheduled unit; `Battle.SnapshotWithin` bounds them |
| Battle.SnapshotWithin | battle_model.py:111-113 | every snapshot average is 0 without allies and otherwise lies within the allies' morale |
| Battle.SnapshotReadsMorale | battle_model.py:111-116 | the averages read only types and morale, so they are fixed before any update can change them |
| Battle.BothSides | battle_model.py:120-133 | defines the step's result as a live red and a live blue unit scheduled; `Battle.BothSidesIff` states it on well-formed tables |
| Battle.BothSidesIff | battle_model.py:120-133 | on a well-formed table the result is true exactly when a live red unit and a live blue unit remain |
| Battle.BattleModel.constructor | battle_model.py:15-28 | setup leaves the roster of both spawner calls, every unit scheduled, the id counter one past the last id, running |
| Battle.BattleModel.Spawn | battle_model.py:74-104 | a new unit with the next id and handle is added and scheduled, and the id counter moves on by one |
| Battle.BattleModel.Spawner | battle_model.py:30-69 | the spawner appends a block of the side, column by column and row by row, then links the whole roster |
| Battle.BattleModel.SpawnNextColumn | battle_model.py:31-59 | one pass of the outer loop appends the next column |
| Battle.BattleModel.SpawnColumn | battle_model.py:32-59 | the inner loop appends the cells of one column |
| Battle.BattleModel.SpawnCell | battle_model.py:40-59 | one pass of the inner loop appends the unit of that cell |
| Battle.BattleModel.Step | battle_model.py:108-133 | a step leaves the state of the tick, keeps the invariant and reports whether both sides remain |
| Battle.BattleModel.Activate | battle_model.py:109 | every unit of the activation order still scheduled takes its turn |
| Battle.BattleModel.ApplyMorale | battle_model.py:115-116 | the apply loop leaves the state of the apply phase |
| Battle.BattleModel.Averages | battle_model.py:111-113 | the snapshot loop returns every scheduled unit's allies' average, taken before any update |
| Battle.BattleModel.SidesRemain | battle_model.py:120-133 | the flag loop reports whether a red and a blue unit are scheduled |

## Left out

- The mesa space and `RandomActivation`. Each turn's neighbour lists are
  inputs (`Scan`): one list per radius the policies use. So are the
  activation order and the flocking neighbours of the morale pass. A unit
  removed from the schedule earlier in a step is skipped, as the
  scheduler does.
- Movement and steering. Positions are not modelled. This covers `move`,
  `move_medic`, `calculate_velocity_vector`, the coherence, match and
  separation vectors, normalisation, `place_agent`, `move_agent` and the
  spawn positions. A move is recorded only as the action `Move` or
  `MoveToHealer`.
- Randomness. `random.choice(l)` is `l[pick % |l|]` for an injected draw.
  The guard's successive choices come from a list of draws. The
  marksman's `randrange(10)` is the `shot` draw.
- `list.remove(x)` removes the first occurrence of `x`. The model removes
  the element at the loop's position. The two agree on neighbour lists
  without repeats, which is what the space returns (`Near`).
- Per-unit log files, `print` in `step` and the unused `DataCollector`
  import. These are output only.
- Float rounding. Hp and morale are exact `real` numbers.
- Names, the log handle, velocity and position of a unit. Per-unit copies
  of the global constants appear only where the rules read them.
- The `running` flag is set at setup and never changed.
- Warriors.World.Die: the model's death applies to any unit. On a unit not
  in the schedule it leaves the schedule unchanged, where mesa's `remove`
  would fail. Under the invariant every caller kills only a live unit.
- Rules.PreciseHitMarksman: requires that the marksman is not among the
  target's soldiers. Its morale is then stated only for that case; a
  target leader listing the marksman would also take the death penalty
  from it.
- Rules.FleeSeenLaterInPass: stated for a pass over two units only. The
  general case follows from `Rules.MoraleUpdateFrame` applied step by step.
