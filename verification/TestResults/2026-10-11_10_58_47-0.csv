TestResult.DisplayName,TestResult.Outcome,TestResult.Duration,TestResult.ResourceCount,RandomSeed
Wasteland.RunReaches (correctness),Passed,00:00:00.1111007,221721,0
Wasteland.ExampleWalk (correctness),Passed,00:00:00.0735345,124002,0
Wasteland.Part1 (correctness),Passed,00:00:00.0731155,69805,0
Wasteland.Choose (well-formedness),Passed,00:00:00.0663963,17797,0
Wasteland.Pos (well-formedness),Passed,00:00:00.0644377,13721,0
Wasteland.StepPast (correctness),Passed,00:00:00.0548475,104274,0
Wasteland.RunReaches (well-formedness),Passed,00:00:00.0424951,36673,0
Wasteland.WalkReaches (correctness),Passed,00:00:00.0336670,67478,0
Wasteland.AtStaysNone (correctness),Passed,00:00:00.0304939,72494,0
Wasteland.WalkAtLeastOne (correctness),Passed,00:00:00.0280228,40777,0
Wasteland.Walk (well-formedness),Passed,00:00:00.0279928,34167,0
Wasteland.At (well-formedness),Passed,00:00:00.0273646,29207,0
Wasteland.ExampleWalk (well-formedness),Passed,00:00:00.0271541,36807,0
Wasteland.Run (well-formedness),Passed,00:00:00.0257968,35149,0
Wasteland.WalkFuelMonotone (correctness),Passed,00:00:00.0233121,41219,0
Wasteland.ReachNow (well-formedness),Passed,00:00:00.0225013,30352,0
Wasteland.WalkReaches (well-formedness),Passed,00:00:00.0220506,37033,0
Wasteland.NoReachAfterFailure (correctness),Passed,00:00:00.0204987,37619,0
Wasteland.ReachNow (correctness),Passed,00:00:00.0204059,36943,0
Wasteland.WalkAtLeastOne (well-formedness),Passed,00:00:00.0183444,29928,0
Wasteland.FirstReach (well-formedness),Passed,00:00:00.0178265,33269,0
Wasteland.StepPast (well-formedness),Passed,00:00:00.0176885,30774,0
Wasteland.NoReachAfterFailure (well-formedness),Passed,00:00:00.0175402,32335,0
Wasteland.FirstReachAfter (well-formedness),Passed,00:00:00.0173465,33443,0
Wasteland.AtStaysNone (well-formedness),Passed,00:00:00.0165600,25043,0
Wasteland.Instr (well-formedness),Passed,00:00:00.0145494,9710,0
