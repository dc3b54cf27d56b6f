/** The seed data of the in-memory store (services/mockData.ts). */
module MockData {
  import opened Types

  /** `generateMockData(year)`: a lookup into a fixed table of per-year
      analytics; `undefined` (here `None`) for any year outside 1..4. */
  function GenerateMockData(year: int): Option<YearlyStats>
  {
    if year == 1 then Some(YearlyStats(120, PassFail(95, 25), PassFail(105, 15), AttendanceSplit(85, 35),
                                       CgpaBuckets(15, 25, 35, 25, 15, 5), None, None))
    else if year == 2 then Some(YearlyStats(115, PassFail(100, 15), PassFail(108, 7), AttendanceSplit(95, 20),
                                            CgpaBuckets(20, 30, 30, 20, 12, 3), None, None))
    else if year == 3 then Some(YearlyStats(110, PassFail(102, 8), PassFail(105, 5), AttendanceSplit(98, 12),
                                            CgpaBuckets(25, 35, 25, 15, 8, 2), Some(Internship(75, 25, 10)), None))
    else if year == 4 then Some(YearlyStats(105, PassFail(100, 5), PassFail(103, 2), AttendanceSplit(100, 5),
                                            CgpaBuckets(30, 40, 20, 10, 4, 1), Some(Internship(95, 8, 2)),
                                            Some(Placement(78, 20, 7))))
    else None
  }

  const InitialUsers: seq<User> := [
    User(1, "Dr. Rajesh Kumar", "rajesh@college.edu", Staff, "1", "Mathematics"),
    User(2, "Prof. Priya Sharma", "priya@college.edu", Staff, "2", "Physics"),
    User(3, "Dr. Amit Patel", "amit@college.edu", Staff, "3", "Data Structures"),
    User(4, "Arun Kumar", "arun@student.edu", Role.Student, "1", "-"),
    User(5, "Sneha Reddy", "sneha@student.edu", Role.Student, "2", "-")
  ]

  const InitialStudents: seq<Student> := [
    Student.Student(1, "Arun Kumar", Some("arun@student.edu"), "CS101", Some("1"), 85.0, 90.0, 92.0, Some(8.5)),
    Student.Student(2, "Sneha Reddy", Some("sneha@student.edu"), "CS102", Some("1"), 78.0, 82.0, 88.0, Some(8.2)),
    Student.Student(3, "Rahul Verma", None, "CS103", Some("1"), 92.0, 95.0, 95.0, Some(9.0)),
    Student.Student(4, "Priya Singh", None, "CS104", Some("1"), 70.0, 75.0, 80.0, Some(7.5)),
    Student.Student(5, "Karthik Raj", None, "CS105", Some("1"), 88.0, 85.0, 90.0, Some(8.8)),
    Student.Student(6, "Emily Davis", None, "CS201", Some("2"), 88.0, 91.0, 94.0, Some(8.9)),
    Student.Student(7, "Michael Brown", None, "CS202", Some("2"), 65.0, 70.0, 76.0, Some(6.8)),
    Student.Student(8, "Sarah Jones", None, "CS301", Some("3"), 95.0, 96.0, 98.0, Some(9.5)),
    Student.Student(9, "David Wilson", None, "CS302", Some("3"), 82.0, 85.0, 89.0, Some(8.0)),
    Student.Student(10, "James White", None, "CS401", Some("4"), 90.0, 92.0, 95.0, Some(9.1)),
    Student.Student(11, "Linda Green", None, "CS402", Some("4"), 88.0, 89.0, 91.0, Some(8.7)),
    Student.Student(12, "Robert Black", None, "CS403", Some("4"), 75.0, 78.0, 82.0, Some(7.8))
  ]

  const MockSubjects: seq<Subject> := [
    Subject(101, "Mathematics I", "MAT101", "1", 1, "Dr. Rajesh Kumar", 60, "2025-05-15"),
    Subject(102, "Physics", "PHY101", "1", 2, "Prof. Priya Sharma", 60, "2025-05-14"),
    Subject(103, "Prog. in C", "CS101", "1", 3, "Dr. Amit Patel", 60, "2025-05-10"),
    Subject(201, "Data Structures", "CS201", "2", 3, "Dr. Amit Patel", 55, "2025-05-12"),
    Subject(202, "OOPs", "CS202", "2", 1, "Prof. John Doe", 55, "2025-05-11"),
    Subject(203, "Operating Sys.", "CS203", "2", 2, "Prof. Jane Doe", 55, "2025-05-13"),
    Subject(301, "DBMS", "CS301", "3", 1, "Dr. Rajesh Kumar", 50, "2025-05-15"),
    Subject(302, "Networks", "CS302", "3", 2, "Prof. Priya Sharma", 50, "2025-05-14"),
    Subject(401, "Cloud Computing", "CS401", "4", 3, "Dr. Amit Patel", 45, "2025-05-12"),
    Subject(402, "AI & ML", "CS402", "4", 1, "Prof. John Doe", 45, "2025-05-10")
  ]

  const MockMarks: seq<StudentSubjectMark> := [
    StudentSubjectMark(1, "Arun Kumar", "CS101", 101, "Mathematics I", 45.0, 48.0, 10.0, 93.0, 100.0),
    StudentSubjectMark(1, "Arun Kumar", "CS101", 102, "Physics", 40.0, 42.0, 9.0, 81.0, 100.0),
    StudentSubjectMark(1, "Arun Kumar", "CS101", 103, "Prog. in C", 42.0, 45.0, 10.0, 87.0, 100.0),
    StudentSubjectMark(2, "Sneha Reddy", "CS102", 101, "Mathematics I", 35.0, 40.0, 8.0, 73.0, 100.0),
    StudentSubjectMark(2, "Sneha Reddy", "CS102", 102, "Physics", 45.0, 46.0, 10.0, 91.0, 100.0),
    StudentSubjectMark(6, "Emily Davis", "CS201", 201, "Data Structures", 44.0, 45.0, 10.0, 89.0, 100.0),
    StudentSubjectMark(6, "Emily Davis", "CS201", 202, "OOPs", 40.0, 42.0, 9.0, 81.0, 100.0)
  ]

  const AchievementCategories: seq<AchievementCategory> := [
    AchievementCategory(1, "Paper Presentation", 20, "Presented research paper at conference"),
    AchievementCategory(2, "Hackathon Winner", 25, "Won a hackathon competition"),
    AchievementCategory(3, "Hackathon Participation", 10, "Participated in hackathon"),
    AchievementCategory(4, "Certification", 15, "Completed NPTEL/Coursera certification"),
    AchievementCategory(5, "Workshop/Seminar", 5, "Attended workshop or seminar"),
    AchievementCategory(6, "Internship", 20, "Completed internship program"),
    AchievementCategory(7, "Competition Winner", 25, "Won competitive event"),
    AchievementCategory(8, "Competition Participation", 10, "Participated in competition")
  ]

  const MockAchievements: seq<Achievement> := [
    Achievement(1, 1, Some("Arun Kumar"), Some("CS101"), None, 1, Some("Paper Presentation"),
                "AI in Healthcare", "Presented at IEEE Conference", "cert_ieee_2024.pdf",
                "2024-10-15", 20, Approved, "2024-10-16"),
    Achievement(2, 1, Some("Arun Kumar"), Some("CS101"), None, 2, Some("Hackathon Winner"),
                "Smart City Hackathon", "First prize in smart traffic system", "hackathon_win.jpg",
                "2024-11-20", 0, Pending, "2024-11-21"),
    Achievement(3, 2, Some("Sneha Reddy"), Some("CS102"), None, 4, Some("Certification"),
                "AWS Cloud Practitioner", "Completed AWS certification", "aws_cert.pdf",
                "2024-09-10", 15, Approved, "2024-09-11")
  ]
}
