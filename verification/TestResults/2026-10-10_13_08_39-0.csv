TestResult.DisplayName,TestResult.Outcome,TestResult.Duration,TestResult.ResourceCount,RandomSeed
LithoFilter.RegisterSound (correctness) (assertion batch 15),Failed,00:00:08.9486143,20097331,0
LithoFilter.RegisterSound (correctness) (assertion batch 28),Passed,00:00:00.7143372,107671,0
LithoFilter.RegisterSound (correctness) (assertion batch 23),Passed,00:00:00.3520741,759855,0
LithoFilter.RegisterSound (well-formedness) (assertion batch 1),Passed,00:00:00.3121077,81321,0
LithoFilter.RegisterSound (well-formedness) (assertion batch 2),Passed,00:00:00.2983426,83286,0
LithoFilter.RegisterSound (correctness) (assertion batch 8),Passed,00:00:00.2695023,91509,0
LithoFilter.RegisterSound (correctness) (assertion batch 14),Passed,00:00:00.2639590,368076,0
LithoFilter.RegisterSound (correctness) (assertion batch 9),Passed,00:00:00.2244246,91529,0
LithoFilter.RegisterSound (correctness) (assertion batch 12),Passed,00:00:00.2042240,91827,0
LithoFilter.RegisterSound (correctness) (assertion batch 13),Passed,00:00:00.1887236,107628,0
LithoFilter.RegisterSound (correctness) (assertion batch 6),Passed,00:00:00.1765097,91216,0
LithoFilter.RegisterSound (correctness) (assertion batch 7),Passed,00:00:00.1763843,91219,0
LithoFilter.RegisterSound (correctness) (assertion batch 1),Passed,00:00:00.1200800,121534,0
LithoFilter.RegisterSound (correctness) (assertion batch 19),Passed,00:00:00.1088590,196979,0
LithoFilter.RegisterSound (correctness) (assertion batch 20),Passed,00:00:00.1018076,145025,0
LithoFilter.RegisterSound (correctness) (assertion batch 22),Passed,00:00:00.0966966,107632,0
LithoFilter.RegisterSound (correctness) (assertion batch 25),Passed,00:00:00.0936332,108118,0
LithoFilter.RegisterSound (correctness) (assertion batch 17),Passed,00:00:00.0930041,108107,0
LithoFilter.RegisterSound (correctness) (assertion batch 10),Passed,00:00:00.0919125,98259,0
LithoFilter.RegisterSound (correctness) (assertion batch 18),Passed,00:00:00.0892897,98842,0
LithoFilter.RegisterSound (correctness) (assertion batch 11),Passed,00:00:00.0880554,91768,0
LithoFilter.RegisterSound (correctness) (assertion batch 21),Passed,00:00:00.0853636,107632,0
LithoFilter.RegisterSound (correctness) (assertion batch 16),Passed,00:00:00.0719187,98802,0
LithoFilter.RegisterSound (correctness) (assertion batch 24),Passed,00:00:00.0500972,98717,0
LithoFilter.RegisterSound (correctness) (assertion batch 27),Passed,00:00:00.0494910,110786,0
LithoFilter.RegisterSound (correctness) (assertion batch 26),Passed,00:00:00.0422897,98738,0
LithoFilter.RegisterSound (correctness) (assertion batch 2),Passed,00:00:00.0348084,21716,0
LithoFilter.RegisterSound (correctness) (assertion batch 4),Passed,00:00:00.0324009,19083,0
LithoFilter.RegisterSound (well-formedness) (assertion batch 3),Passed,00:00:00.0285959,16421,0
LithoFilter.RegisterSound (correctness) (assertion batch 3),Passed,00:00:00.0269633,19855,0
LithoFilter.RegisterSound (correctness) (assertion batch 5),Passed,00:00:00.0240611,20070,0
