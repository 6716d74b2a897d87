TestResult.DisplayName,TestResult.Outcome,TestResult.Duration,TestResult.ResourceCount,RandomSeed
Ventes.CreateVenteStock (well-formedness),Passed,00:00:00.3109380,242316,0
Ventes.CreateVenteStock (correctness),Passed,00:00:00.2962903,324019,0
